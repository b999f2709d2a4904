/** What the form's validators promise, proved about the model in `Forms`. */
module FormProperties {
  import opened Regex
  import opened Forms

  // ---------------------------------------------------------------------
  // Postcode field

  /** The postcode field's error list in closed form: a blank postcode gets
      the required message alone; otherwise the length message comes first
      when the length is outside 5..7, then the grammar message when the
      postcode does not start with a recognised postcode. */
  lemma PostcodeErrors(s: string)
    ensures ValidatePostcode(s)
            == if Blank(s) then [RequiredMessage]
               else (if |s| < MinLength || |s| > MaxLength then [LengthMessage] else [])
                    + (if PostcodeShape(s) then [] else [PostcodeMessage])
  {
    PatternMeansShape(s);
    var length, regexp := Length(MinLength, MaxLength, LengthMessage), Regexp(PostcodePattern, PostcodeMessage);
    assert PostcodeValidators == [DataRequired, length, regexp];
    assert [DataRequired, length, regexp][1..] == [length, regexp];
    assert [length, regexp][1..] == [regexp];
    assert [regexp][1..] == [];
    if !Blank(s) {
      var e1: seq<string> := if Check(length, s).Pass? then [] else [LengthMessage];
      assert [] + [LengthMessage] == [LengthMessage];
      assert ValidatePostcode(s) == RunChain([length, regexp], s, []);
      assert RunChain([length, regexp], s, []) == RunChain([regexp], s, e1);
      var e2: seq<string> := if PostcodeShape(s) then [] else [PostcodeMessage];
      assert RunChain([regexp], s, e1) == RunChain([], s, e1 + e2);
      assert e1 + e2 == (if |s| < MinLength || |s| > MaxLength then [LengthMessage] else []) + e2;
    }
  }

  /** The three postcode messages are different texts. */
  lemma MessagesDistinct()
    ensures RequiredMessage != LengthMessage && RequiredMessage != PostcodeMessage
    ensures LengthMessage != PostcodeMessage
  {
  }

  /** A failed required check stops the chain: the required message is then
      the only error, and it is reported exactly for blank postcodes. */
  lemma RequiredStopsChain(s: string)
    ensures ValidatePostcode(s) == [RequiredMessage] <==> Blank(s)
    ensures RequiredMessage in ValidatePostcode(s) <==> Blank(s)
  {
    PostcodeErrors(s);
    MessagesDistinct();
  }

  /** The length message appears exactly when a non-blank postcode is
      shorter than 5 or longer than 7 characters. */
  lemma LengthErrorExactly(s: string)
    ensures LengthMessage in ValidatePostcode(s) <==> !Blank(s) && (|s| < 5 || |s| > 7)
  {
    PostcodeErrors(s);
    MessagesDistinct();
  }

  /** The grammar message appears exactly when a non-blank postcode does not
      start with a recognised postcode, whatever its length. */
  lemma GrammarErrorExactly(s: string)
    ensures PostcodeMessage in ValidatePostcode(s) <==> !Blank(s) && !PostcodeShape(s)
  {
    PostcodeErrors(s);
    MessagesDistinct();
  }

  /** A length failure does not stop the chain: a postcode that is both too
      long or short and outside the grammar gets both messages, in order. */
  lemma BothErrorsInOrder(s: string)
    requires !Blank(s) && (|s| < 5 || |s| > 7) && !PostcodeShape(s)
    ensures ValidatePostcode(s) == [LengthMessage, PostcodeMessage]
  {
    PostcodeErrors(s);
  }

  /** The grammar needs at least six characters: up to two area letters, a
      digit, a space, a digit and two unit letters. */
  lemma ShapeNeedsSix(s: string)
    requires PostcodeShape(s)
    ensures |s| >= 6
  {
  }

  /** A recognised postcode starts with a letter, so it is never blank. */
  lemma ShapeNotBlank(s: string)
    requires PostcodeShape(s)
    ensures !Blank(s)
  {
  }

  /** A postcode passes exactly when it starts with a recognised postcode
      and has at most seven characters; it then has six or seven. */
  lemma PostcodeAccepted(s: string)
    ensures ValidatePostcode(s) == [] <==> PostcodeShape(s) && |s| <= 7
    ensures ValidatePostcode(s) == [] ==> |s| == 6 || |s| == 7
  {
    PostcodeErrors(s);
    if PostcodeShape(s) {
      ShapeNeedsSix(s);
      ShapeNotBlank(s);
    }
  }

  /** No five-character string is a recognised postcode, so the lower
      length bound never decides anything on its own. */
  lemma FiveCharactersNeverPass(s: string)
    requires |s| == 5
    ensures !PostcodeShape(s)
    ensures PostcodeMessage in ValidatePostcode(s) || RequiredMessage in ValidatePostcode(s)
  {
    if PostcodeShape(s) { ShapeNeedsSix(s); }
    RequiredStopsChain(s);
    GrammarErrorExactly(s);
  }

  /** Every postcode of eight or more characters is refused with the length
      message, even a complete one; when it is in the grammar that message
      is its only error. */
  lemma LongPostcodesRejected(s: string)
    requires |s| >= 8
    ensures LengthMessage in ValidatePostcode(s) || RequiredMessage in ValidatePostcode(s)
    ensures PostcodeShape(s) ==> ValidatePostcode(s) == [LengthMessage]
  {
    PostcodeErrors(s);
    if PostcodeShape(s) { ShapeNotBlank(s); }
  }

  lemma BlankIgnoresCase(s: string, t: string)
    requires SameFold(s, t)
    ensures Blank(s) == Blank(t)
  {
  }

  /** Matching is case-insensitive: two postcodes that differ only in the
      case of their letters get the same errors. */
  lemma PostcodeIgnoresCase(s: string, t: string)
    requires SameFold(s, t)
    ensures ValidatePostcode(s) == ValidatePostcode(t)
  {
    BlankIgnoresCase(s, t);
    MatchIgnoresCase(PostcodePattern, s, t, 0);
    PatternMeansShape(s);
    PatternMeansShape(t);
    PostcodeErrors(s);
    PostcodeErrors(t);
  }

  /** In particular a postcode is accepted exactly when its upper-case form
      is, and exactly when its lower-case form is. */
  lemma UpperAndLowerCaseAgree(s: string)
    ensures ValidatePostcode(UpperAll(s)) == ValidatePostcode(s)
    ensures ValidatePostcode(LowerAll(s)) == ValidatePostcode(s)
  {
    PostcodeIgnoresCase(s, UpperAll(s));
    PostcodeIgnoresCase(s, LowerAll(s));
  }

  /** The shape in its four concrete alternatives. */
  lemma ShapeCases(s: string)
    ensures PostcodeShape(s)
            <==> ShapeWith(s, 1, 0) || ShapeWith(s, 1, 1) || ShapeWith(s, 2, 0) || ShapeWith(s, 2, 1)
  {
  }

  // ---------------------------------------------------------------------
  // Fuel-type field

  /** The select field's choices are exactly the fuel types. */
  lemma FuelChoicesAreFuelTypes(f: string)
    ensures IsChoice(FuelChoices, f) <==> f in FuelTypes
  {
  }

  lemma FuelTypesNotBlank(f: string)
    requires f in FuelTypes
    ensures !Blank(f)
  {
    assert !IsPySpace(f[0]);
  }

  /** The fuel field's error list in closed form. A blank value gets the
      required message alone (the choice message recorded before the
      validators run is discarded); otherwise a value that is not a fuel
      type gets the choice message. */
  lemma FuelErrors(f: string)
    ensures ValidateFuel(f)
            == if Blank(f) then [RequiredMessage]
               else if f in FuelTypes then [] else [ChoiceMessage]
  {
    FuelChoicesAreFuelTypes(f);
    var pre := if IsChoice(FuelChoices, f) then [] else [ChoiceMessage];
    assert FuelValidators == [DataRequired];
    assert [DataRequired][1..] == [];
    assert ValidateFuel(f) == RunChain([DataRequired], f, pre);
  }

  /** A fuel type is accepted exactly when it is one of the seven listed. */
  lemma FuelAccepted(f: string)
    ensures ValidateFuel(f) == [] <==> f in FuelTypes
    ensures f !in FuelTypes && !Blank(f) ==> ValidateFuel(f) == [ChoiceMessage]
  {
    FuelErrors(f);
    if f in FuelTypes { FuelTypesNotBlank(f); }
  }

  // ---------------------------------------------------------------------
  // The whole form

  /** Each field has its own validators: the postcode's errors do not depend
      on the fuel type, nor the fuel type's on the postcode. */
  lemma FieldsIndependent(p: string, p2: string, f: string, f2: string)
    ensures ValidateForm(p, f).postcode == ValidateForm(p, f2).postcode
    ensures ValidateForm(p, f).fuelType == ValidateForm(p2, f).fuelType
  {
  }

  /** The form validates exactly when the postcode starts with a recognised
      postcode, has at most seven characters, and the fuel type is listed. */
  lemma FormValidatesExactly(p: string, f: string)
    ensures Validates(p, f) <==> PostcodeShape(p) && |p| <= 7 && f in FuelTypes
  {
    PostcodeAccepted(p);
    FuelAccepted(f);
  }

  // ---------------------------------------------------------------------
  // Worked examples

  lemma ValidExample()
    ensures Validates("N19 4LD", "E10")
  {
    var s := "N19 4LD";
    assert ShapeWith(s, 1, 1);
    assert PostcodeShape(s);
    FormValidatesExactly(s, "E10");
  }

  lemma EveryFuelTypeWithValidPostcode(f: string)
    requires f in FuelTypes
    ensures Validates("M1 1AA", f)
  {
    var s := "M1 1AA";
    assert ShapeWith(s, 1, 0);
    assert PostcodeShape(s);
    FormValidatesExactly(s, f);
  }

  lemma InvalidCharactersExample()
    ensures ValidatePostcode("M1 $!%AA") == [LengthMessage, PostcodeMessage]
  {
    var s := "M1 $!%AA";
    ShapeCases(s);
    assert !ShapeWith(s, 1, 0) && !ShapeWith(s, 1, 1);
    assert !ShapeWith(s, 2, 0) && !ShapeWith(s, 2, 1);
    assert !IsPySpace(s[0]);
    PostcodeErrors(s);
  }

  lemma InvalidLengthExamples()
    ensures LengthMessage in ValidatePostcode("M1")
    ensures LengthMessage in ValidatePostcode("M11")
    ensures LengthMessage in ValidatePostcode("M111")
    ensures LengthMessage in ValidatePostcode("M11111111")
  {
    assert !IsPySpace('M');
    assert "M1"[0] == 'M' && "M11"[0] == 'M' && "M111"[0] == 'M' && "M11111111"[0] == 'M';
    LengthErrorExactly("M1");
    LengthErrorExactly("M11");
    LengthErrorExactly("M111");
    LengthErrorExactly("M11111111");
  }

  lemma InvalidFuelExamples()
    ensures ValidateFuel("Electric") == [ChoiceMessage]
    ensures ValidateFuel("Oil") == [ChoiceMessage]
    ensures ValidateFuel("Gas") == [ChoiceMessage]
    ensures ValidateFuel("Petrol") == [ChoiceMessage]
  {
    assert !IsPySpace('E') && !IsPySpace('O') && !IsPySpace('G') && !IsPySpace('P');
    assert "Electric"[0] == 'E' && "Oil"[0] == 'O' && "Gas"[0] == 'G' && "Petrol"[0] == 'P';
    FuelAccepted("Electric");
    FuelAccepted("Oil");
    FuelAccepted("Gas");
    FuelAccepted("Petrol");
  }

  /** A complete eight-character postcode is refused by the length rule
      alone. */
  lemma FullPostcodeRefused()
    ensures ValidatePostcode("SW1A 2AA") == [LengthMessage]
  {
    var s := "SW1A 2AA";
    assert ShapeWith(s, 2, 1);
    assert PostcodeShape(s);
    LongPostcodesRejected(s);
  }

  /** The match is anchored only at the start: after the unit letters the
      string may go on with any character that is not a word character, so
      a trailing space or punctuation mark is accepted, while a further
      letter is refused by the closing word boundary. */
  lemma TrailingCharacterExamples()
    ensures ValidatePostcode("M1 1AA!") == []
    ensures ValidatePostcode("M1 1AA ") == []
    ensures ValidatePostcode("M1 1AAB") == [PostcodeMessage]
  {
    var bang, space, letter := "M1 1AA!", "M1 1AA ", "M1 1AAB";
    assert ShapeWith(bang, 1, 0);
    assert ShapeWith(space, 1, 0);
    PostcodeAccepted(bang);
    PostcodeAccepted(space);
    ShapeCases(letter);
    assert !ShapeWith(letter, 1, 0) && !ShapeWith(letter, 1, 1);
    assert !ShapeWith(letter, 2, 0) && !ShapeWith(letter, 2, 1);
    assert !IsPySpace(letter[0]);
    PostcodeErrors(letter);
  }
}
