# Petrol-station finder: submission form validation

The web application asks a user for a UK postcode and a fuel type before it
looks for nearby petrol stations. Both values go through the `PetrolForm`
validators in `petrol_locations/forms.py`, and this project models those
validators and proves what they accept and reject.

- **Postcode.** The postcode runs through three validators in order:
  - `DataRequired` refuses empty or all-white-space input. It discards any
    earlier errors and stops the chain.
  - `Length(5, 7)` adds "Should be 5 to 7 letters" and lets the chain go on.
  - `Regexp` with `re.IGNORECASE` adds "Not a recognised postcode" when the
    pattern does not match at the start of the input.
- **Fuel type.** The select field first checks that the value is one of its
  choices. Each choice is built from `FUEL_TYPES`, and a value that is not
  one of them adds "Not a valid choice.". Then `DataRequired` runs.

The model has three modules:

- `Regex` (`regex.dfy`): the part of Python's regular expressions that the
  pattern uses. A pattern is a list of word boundaries and quantified
  character classes. `Match` tries every way a backtracking engine could
  match the pattern from a given position. `MatchesPrefix` is `re.match`: it
  is anchored at the start only.
- `Forms` (`forms.dfy`): the form's configuration, written as data.
  - It holds the fuel types, the messages, the character classes, the
    pattern node by node, and each field's validator list.
  - `Check` models one validator. `RunChain` models WTForms' chain.
    `ValidatePostcode`, `ValidateFuel` and `ValidateForm` give the error lists.
  - It also has an independent reading of the postcode grammar
    (`PostcodeShape`). The lemma `PatternMeansShape` proves that the regular
    expression means exactly that grammar.
- `FormProperties` (`form_properties.dfy`): the error lists in closed form,
  the properties that follow from them, and the cases in the test suite.

Consequences proved about the code as written:

- Only 6- and 7-character postcodes can pass. The grammar needs at least six
  characters, and the length rule stops at seven.
- A complete 8-character postcode such as "SW1A 2AA" is refused, with the
  length message as its only error.
- The pattern is not anchored at the end. A postcode followed by one
  non-word character, such as "M1 1AA!" or "M1 1AA ", is accepted.
- A blank fuel type is reported only as required. The choice message
  recorded before it is discarded.

The pattern `[A-Z]{1,2}` requires one or two area letters, so a postcode
that starts with a digit is refused.

## Model

| member | source | states |
|---|---|---|
| `Regex.MatchIgnoresCase` | petrol_locations/forms.py:13-15 | under `re.IGNORECASE`, two subjects that differ only in letter case match the same patterns |
| `Regex.MatchOneOrTwoHead` | petrol_locations/forms.py:13 | `[A-Z]{1,2}` consumes one class character and then optionally a second one |
| `Regex.MatchOptionalHead` | petrol_locations/forms.py:13 | `[A-Z0-9]?` consumes one class character or nothing |
| `Regex.MatchOneHead` | petrol_locations/forms.py:13 | an unquantified class or literal consumes exactly one matching character |
| `Regex.MatchTwoHead` | petrol_locations/forms.py:13 | `{2}` consumes exactly two class characters |
| `Regex.MatchBoundaryHead` | petrol_locations/forms.py:13 | `\b` consumes nothing and needs a word character on exactly one side |
| `Regex.UpperAll` | petrol_locations/forms.py:14 | the upper-case form of a string differs from it only in letter case and has no lower-case ASCII letter left |
| `Regex.LowerAll` | petrol_locations/forms.py:14 | the lower-case form of a string differs from it only in letter case and has no upper-case ASCII letter left |
| `Regex.UpperClassMatch` | petrol_locations/forms.py:13-14 | a case-insensitive class of capitals matches a character exactly when its upper-case form is in range |
| `Forms.ChoicesOf` | petrol_locations/forms.py:17 | each choice pairs a fuel type with itself as value and label, in list order |
| `Forms.AreaClassMeans` | petrol_locations/forms.py:13-14 | `[A-Z]` under IGNORECASE is exactly the ASCII letters |
| `Forms.AlnumClassMeans` | petrol_locations/forms.py:13-14 | `[A-Z0-9]` under IGNORECASE is exactly the ASCII letters and digits |
| `Forms.UnitClassMeans` | petrol_locations/forms.py:13-14 | `[ABD-HJLNP-UW-Z]` under IGNORECASE is exactly the letters other than C, I, K, M, O and V, in either case |
| `Forms.InwardPatternMeans` | petrol_locations/forms.py:13 | the tail of the pattern matches exactly a space, a digit, two unit letters, then the end or a non-word character |
| `Forms.PatternMeansShape` | petrol_locations/forms.py:13-15 | the postcode regular expression matches a string exactly when it begins with 1–2 letters, a digit, an optional letter or digit, a space, a digit and two unit letters, followed by the end or a non-word character |
| `FormProperties.PostcodeErrors` | petrol_locations/forms.py:9-15 | the postcode error list is the required message alone for blank input, else the length message (length outside 5..7) followed by the grammar message (no recognised postcode at the start) |
| `FormProperties.RequiredStopsChain` | petrol_locations/forms.py:10 | the required message is reported exactly for blank postcodes, and then it is the only error |
| `FormProperties.LengthErrorExactly` | petrol_locations/forms.py:11-12 | "Should be 5 to 7 letters" is reported exactly for non-blank postcodes shorter than 5 or longer than 7 |
| `FormProperties.GrammarErrorExactly` | petrol_locations/forms.py:13-15 | "Not a recognised postcode" is reported exactly for non-blank postcodes outside the grammar, whatever their length |
| `FormProperties.BothErrorsInOrder` | petrol_locations/forms.py:10-15 | a length failure does not stop the chain: a wrong-length postcode outside the grammar gets both messages, length first |
| `FormProperties.ShapeNeedsSix` | petrol_locations/forms.py:13 | every string the grammar accepts has at least six characters |
| `FormProperties.PostcodeAccepted` | petrol_locations/forms.py:10-15 | a postcode passes exactly when it is in the grammar and has at most seven characters, so it has six or seven |
| `FormProperties.FiveCharactersNeverPass` | petrol_locations/forms.py:11-13 | no 5-character string is in the grammar, so each one is refused |
| `FormProperties.LongPostcodesRejected` | petrol_locations/forms.py:11-12 | every postcode of eight or more characters is refused, and one in the grammar gets only the length message |
| `FormProperties.PostcodeIgnoresCase` | petrol_locations/forms.py:14 | postcodes that differ only in letter case get identical error lists |
| `FormProperties.UpperAndLowerCaseAgree` | petrol_locations/forms.py:14 | a postcode, its upper-case form and its lower-case form get identical error lists |
| `FormProperties.FuelChoicesAreFuelTypes` | petrol_locations/forms.py:6-17 | a value is one of the select field's choices exactly when it is in `FUEL_TYPES` |
| `FormProperties.FuelErrors` | petrol_locations/forms.py:16-18 | the fuel-type errors are the required message alone for blank input, none for a listed fuel type, and "Not a valid choice." otherwise |
| `FormProperties.FuelAccepted` | petrol_locations/forms.py:6-18 | a fuel type is accepted exactly when it is one of the seven listed, and any other non-blank value gets only "Not a valid choice." |
| `FormProperties.FieldsIndependent` | petrol_locations/forms.py:9-18 | the postcode's errors do not depend on the fuel type, and the fuel type's errors do not depend on the postcode |
| `FormProperties.FormValidatesExactly` | petrol_locations/forms.py:8-18 | the form validates exactly when the postcode is in the grammar with at most seven characters and the fuel type is listed |
| `FormProperties.ValidExample` | tests/test_form.py:12-15 | "N19 4LD" with "E10" validates |
| `FormProperties.EveryFuelTypeWithValidPostcode` | tests/test_form.py:30-34 | "M1 1AA" with any listed fuel type validates |
| `FormProperties.InvalidCharactersExample` | tests/test_form.py:17-21 | "M1 $!%AA" gets the length message and then "Not a recognised postcode" |
| `FormProperties.InvalidLengthExamples` | tests/test_form.py:23-28 | "M1", "M11", "M111" and "M11111111" each get "Should be 5 to 7 letters" |
| `FormProperties.InvalidFuelExamples` | tests/test_form.py:36-41 | "Electric", "Oil", "Gas" and "Petrol" each get exactly "Not a valid choice." |
| `FormProperties.FullPostcodeRefused` | petrol_locations/forms.py:11-15 | "SW1A 2AA" matches the grammar but is refused, with the length message as its only error |
| `FormProperties.TrailingCharacterExamples` | petrol_locations/forms.py:13-15 | "M1 1AA!" and "M1 1AA " are accepted because the match is anchored only at the start, while "M1 1AAB" fails the closing word boundary |

## Left out

- Map construction and rendering (`create_base_map`, `render_map` in `petrol_locations/helpers.py`) are not modelled. They are thin calls into the folium library with floating-point coordinates.
- The geocoder exercised by `tests/test_helpers.py` is not part of this model. Its function is not in `helpers.py`, and it is a network client.
- Flask routing, application set-up and template rendering (`petrol_locations/routes.py`, `petrol_locations/__init__.py`) are not modelled. They are web plumbing.
- Configuration loading (`flask_config.py`) is not modelled. It reads the environment.
- CSRF protection and its hidden field are not modelled. The form's tests switch CSRF off.
- The regular expression's case folding and word characters are ASCII only. Python's `re` also folds some non-ASCII characters onto A–Z under IGNORECASE, such as the Kelvin sign and the long s. It also counts non-ASCII letters and digits as word characters for `\b`. The model does neither.
- A missing field value (`None`) is modelled as the empty string. WTForms gives the same errors for both.
- Messages are the untranslated English defaults. Translation through gettext is not modelled.
