/** The submission form of the petrol-station finder: a UK postcode and a
    fuel type, each checked by its own list of WTForms validators. */
module Forms {
  import opened Regex

  // ---------------------------------------------------------------------
  // Configuration declared by the form

  /** The fuel types a user may choose from. */
  const FuelTypes: seq<string> := ["Diesel", "Octane 91", "Octane 95", "Octane 98", "E10", "LPG", "LH2"]

  /** A select field's choices built from a list of values: each value is
      both the submitted value and the label. */
  function ChoicesOf(values: seq<string>): (r: seq<(string, string)>)
    ensures |r| == |values|
    ensures forall k :: 0 <= k < |values| ==> r[k] == (values[k], values[k])
  {
    if values == [] then [] else [(values[0], values[0])] + ChoicesOf(values[1..])
  }

  const FuelChoices: seq<(string, string)> := ChoicesOf(FuelTypes)

  const RequiredMessage: string := "This field is required."
  const LengthMessage: string := "Should be 5 to 7 letters"
  const PostcodeMessage: string := "Not a recognised postcode"
  const ChoiceMessage: string := "Not a valid choice."

  const MinLength: int := 5
  const MaxLength: int := 7

  const AreaClass: CharClass := [('A', 'Z')]
  const DigitClass: CharClass := [('0', '9')]
  const AlnumClass: CharClass := [('A', 'Z'), ('0', '9')]
  const SpaceClass: CharClass := [(' ', ' ')]
  /** `[ABD-HJLNP-UW-Z]`: the letters allowed in the unit part. */
  const UnitClass: CharClass :=
    [('A', 'A'), ('B', 'B'), ('D', 'H'), ('J', 'J'), ('L', 'L'), ('N', 'N'), ('P', 'U'), ('W', 'Z')]

  /** The postcode regular expression, node by node: word boundary, one or
      two letters, a digit, an optional letter or digit, a space, a digit,
      two unit letters, word boundary. */
  const PostcodePattern: seq<Node> :=
    [Boundary, Repeat(AreaClass, 1, 2), Repeat(DigitClass, 1, 1), Repeat(AlnumClass, 0, 1),
     Repeat(SpaceClass, 1, 1), Repeat(DigitClass, 1, 1), Repeat(UnitClass, 2, 2), Boundary]

  // ---------------------------------------------------------------------
  // Validators and the validation chain

  datatype Validator =
    | DataRequired
      /** `hi == -1` means no upper bound. */
    | Length(lo: int, hi: int, message: string)
    | Regexp(pattern: seq<Node>, message: string)

  /** What one validator does with the field's data: accept it, record an
      error and let the chain continue, or stop the chain. */
  datatype Outcome = Pass | Invalid(message: string) | Halt(message: string)

  const PostcodeValidators: seq<Validator> :=
    [DataRequired, Length(MinLength, MaxLength, LengthMessage), Regexp(PostcodePattern, PostcodeMessage)]

  const FuelValidators: seq<Validator> := [DataRequired]

  /** The characters Python's `str.strip()` removes (those for which
      `str.isspace()` holds). */
  predicate IsPySpace(c: char)
  {
    var n := c as int;
    (9 <= n <= 13) || (0x1C <= n <= 0x20) || n == 0x85 || n == 0xA0 || n == 0x1680
    || (0x2000 <= n <= 0x200A) || n == 0x2028 || n == 0x2029 || n == 0x202F
    || n == 0x205F || n == 0x3000
  }

  /** Empty, or nothing but white space: the data `DataRequired` refuses. */
  predicate Blank(s: string)
  {
    forall k :: 0 <= k < |s| ==> IsPySpace(s[k])
  }

  function Check(v: Validator, data: string): Outcome
  {
    match v
    case DataRequired => if Blank(data) then Halt(RequiredMessage) else Pass
    case Length(lo, hi, msg) =>
      if lo <= |data| && (hi == -1 || |data| <= hi) then Pass else Invalid(msg)
    case Regexp(p, msg) => if MatchesPrefix(p, data) then Pass else Invalid(msg)
  }

  /** Runs `chain` in order on `data`, starting from the errors already
      recorded. An invalid outcome appends its message; a halt (which only
      `DataRequired` produces) discards the errors so far and leaves its
      own message alone. */
  function RunChain(chain: seq<Validator>, data: string, errors: seq<string>): seq<string>
  {
    if chain == [] then errors
    else match Check(chain[0], data)
      case Pass => RunChain(chain[1..], data, errors)
      case Invalid(m) => RunChain(chain[1..], data, errors + [m])
      case Halt(m) => [m]
  }

  /** The select field's own check, made before its validators run. */
  predicate IsChoice(choices: seq<(string, string)>, data: string)
  {
    exists k | 0 <= k < |choices| :: choices[k].0 == data
  }

  function ValidatePostcode(postcode: string): seq<string>
  {
    RunChain(PostcodeValidators, postcode, [])
  }

  function ValidateFuel(fuel: string): seq<string>
  {
    RunChain(FuelValidators, fuel, if IsChoice(FuelChoices, fuel) then [] else [ChoiceMessage])
  }

  datatype FormErrors = FormErrors(postcode: seq<string>, fuelType: seq<string>)

  function ValidateForm(postcode: string, fuel: string): FormErrors
  {
    FormErrors(ValidatePostcode(postcode), ValidateFuel(fuel))
  }

  /** The form validates when neither field recorded an error. */
  predicate Validates(postcode: string, fuel: string)
  {
    var e := ValidateForm(postcode, fuel);
    e.postcode == [] && e.fuelType == []
  }

  // ---------------------------------------------------------------------
  // The postcode grammar read directly, independent of the pattern

  predicate IsUnitLetter(c: char)
  {
    IsAsciiLetter(c) && Upper(c) !in "CIKMOV"
  }

  /** The inward code at `j`: a space, a digit and two unit letters, then the
      end of the string or a character that is not a word character. */
  predicate InwardAt(s: string, j: nat)
  {
    j + 4 <= |s| && s[j] == ' ' && IsAsciiDigit(s[j + 1])
    && IsUnitLetter(s[j + 2]) && IsUnitLetter(s[j + 3])
    && (j + 4 == |s| || !IsWordChar(s[j + 4]))
  }

  /** A postcode at the start of `s` with `area` letters and `extra` optional
      characters after the district digit. */
  predicate ShapeWith(s: string, area: int, extra: int)
  {
    1 <= area <= 2 && 0 <= extra <= 1 && area + extra < |s|
    && (forall k :: 0 <= k < area ==> IsAsciiLetter(s[k]))
    && IsAsciiDigit(s[area])
    && (extra == 1 ==> IsAsciiLetter(s[area + 1]) || IsAsciiDigit(s[area + 1]))
    && InwardAt(s, area + 1 + extra)
  }

  predicate PostcodeShape(s: string)
  {
    exists area, extra | 1 <= area <= 2 && 0 <= extra <= 1 :: ShapeWith(s, area, extra)
  }

  // ---------------------------------------------------------------------
  // The pattern means the grammar

  lemma AreaClassMeans(c: char)
    ensures ClassMatch(AreaClass, c) <==> IsAsciiLetter(c)
  {
    assert AreaClass == [('A', 'Z')] + [];
    InRangesCons(('A', 'Z'), [], Lower(c));
    InRangesCons(('A', 'Z'), [], Upper(c));
  }

  lemma DigitClassMeans(c: char)
    ensures ClassMatch(DigitClass, c) <==> IsAsciiDigit(c)
  {
    assert DigitClass == [('0', '9')] + [];
    InRangesCons(('0', '9'), [], Lower(c));
    InRangesCons(('0', '9'), [], Upper(c));
  }

  lemma AlnumClassMeans(c: char)
    ensures ClassMatch(AlnumClass, c) <==> IsAsciiLetter(c) || IsAsciiDigit(c)
  {
    assert AlnumClass == [('A', 'Z')] + DigitClass;
    InRangesCons(('A', 'Z'), DigitClass, Lower(c));
    InRangesCons(('A', 'Z'), DigitClass, Upper(c));
    DigitClassMeans(c);
  }

  lemma SpaceClassMeans(c: char)
    ensures ClassMatch(SpaceClass, c) <==> c == ' '
  {
    assert SpaceClass == [(' ', ' ')] + [];
    InRangesCons((' ', ' '), [], Lower(c));
    InRangesCons((' ', ' '), [], Upper(c));
  }

  lemma UnitRanges(u: char)
    ensures InRanges(UnitClass, u)
            <==> 'A' <= u <= 'Z' && u != 'C' && u != 'I' && u != 'K' && u != 'M' && u != 'O' && u != 'V'
  {
    var w := [('W', 'Z')];
    var pw := [('P', 'U')] + w;
    var n := [('N', 'N')] + pw;
    var l := [('L', 'L')] + n;
    var jl := [('J', 'J')] + l;
    var d := [('D', 'H')] + jl;
    var b := [('B', 'B')] + d;
    assert UnitClass == [('A', 'A')] + b;
    InRangesCons(('A', 'A'), b, u);
    InRangesCons(('B', 'B'), d, u);
    InRangesCons(('D', 'H'), jl, u);
    InRangesCons(('J', 'J'), l, u);
    InRangesCons(('L', 'L'), n, u);
    InRangesCons(('N', 'N'), pw, u);
    InRangesCons(('P', 'U'), w, u);
    InRangesCons(('W', 'Z'), [], u);
  }

  /** The unit class is the letters other than C, I, K, M, O and V. */
  lemma UnitClassMeans(c: char)
    ensures ClassMatch(UnitClass, c) <==> IsUnitLetter(c)
  {
    UpperClassMatch(UnitClass, c);
    UnitRanges(Upper(c));
    assert "CIKMOV" == ['C', 'I', 'K', 'M', 'O', 'V'];
  }

  const InwardPattern: seq<Node> :=
    [Repeat(SpaceClass, 1, 1), Repeat(DigitClass, 1, 1), Repeat(UnitClass, 2, 2), Boundary]

  const DistrictPattern: seq<Node> :=
    [Repeat(DigitClass, 1, 1), Repeat(AlnumClass, 0, 1)] + InwardPattern

  lemma InwardPatternMeans(s: string, j: nat)
    requires j <= |s|
    ensures Match(InwardPattern, s, j) <==> InwardAt(s, j)
  {
    var unitTail := [Repeat(UnitClass, 2, 2)] + [Boundary];
    assert InwardPattern == [Repeat(SpaceClass, 1, 1)] + ([Repeat(DigitClass, 1, 1)] + unitTail);
    MatchOneHead(SpaceClass, [Repeat(DigitClass, 1, 1)] + unitTail, s, j);
    if j < |s| {
      MatchOneHead(DigitClass, unitTail, s, j + 1);
      if j + 1 < |s| {
        MatchTwoHead(UnitClass, [Boundary], s, j + 2);
        if j + 3 < |s| {
          MatchBoundaryHead([], s, j + 4);
          SpaceClassMeans(s[j]);
          DigitClassMeans(s[j + 1]);
          UnitClassMeans(s[j + 2]);
          UnitClassMeans(s[j + 3]);
        }
      }
    }
  }

  lemma DistrictPatternMeans(s: string, j: nat)
    requires j <= |s|
    ensures Match(DistrictPattern, s, j)
            <==> j < |s| && IsAsciiDigit(s[j])
                 && ((j + 1 < |s| && (IsAsciiLetter(s[j + 1]) || IsAsciiDigit(s[j + 1]))
                      && InwardAt(s, j + 2))
                     || InwardAt(s, j + 1))
  {
    assert DistrictPattern == [Repeat(DigitClass, 1, 1)] + ([Repeat(AlnumClass, 0, 1)] + InwardPattern);
    MatchOneHead(DigitClass, [Repeat(AlnumClass, 0, 1)] + InwardPattern, s, j);
    if j < |s| {
      DigitClassMeans(s[j]);
      MatchOptionalHead(AlnumClass, InwardPattern, s, j + 1);
      InwardPatternMeans(s, j + 1);
      if j + 1 < |s| {
        AlnumClassMeans(s[j + 1]);
        InwardPatternMeans(s, j + 2);
      }
    }
  }

  /** The regular expression accepts exactly the strings that begin with a
      postcode of the grammar above. */
  lemma PatternMeansShape(s: string)
    ensures MatchesPrefix(PostcodePattern, s) <==> PostcodeShape(s)
  {
    assert PostcodePattern == [Boundary] + ([Repeat(AreaClass, 1, 2)] + DistrictPattern);
    MatchBoundaryHead([Repeat(AreaClass, 1, 2)] + DistrictPattern, s, 0);
    MatchOneOrTwoHead(AreaClass, DistrictPattern, s, 0);
    if 0 < |s| {
      AreaClassMeans(s[0]);
      DistrictPatternMeans(s, 1);
      if 1 < |s| {
        AreaClassMeans(s[1]);
        DistrictPatternMeans(s, 2);
      }
    }
    if PostcodeShape(s) {
      var area, extra :| 1 <= area <= 2 && 0 <= extra <= 1 && ShapeWith(s, area, extra);
      assert IsAsciiLetter(s[0]);
      assert area == 2 ==> IsAsciiLetter(s[1]);
    }
    if MatchesPrefix(PostcodePattern, s) {
      if 1 < |s| && IsAsciiLetter(s[1]) && Match(DistrictPattern, s, 2) {
        if InwardAt(s, 4) {
          assert ShapeWith(s, 2, 1);
        } else {
          assert ShapeWith(s, 2, 0);
        }
      } else {
        if InwardAt(s, 3) {
          assert ShapeWith(s, 1, 1);
        } else {
          assert ShapeWith(s, 1, 0);
        }
      }
    }
  }
}
