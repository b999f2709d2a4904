/** The part of Python's `re` module that the postcode validator relies on:
    a pattern built from word boundaries and quantified character classes,
    matched case-insensitively and anchored at the start of the subject
    (the behaviour of `re.match` with `re.IGNORECASE`). Only ASCII case
    folding and ASCII word characters are modelled. */
module Regex {

  /** A character class written as inclusive ranges: `[ABD-H]` is
      `[('A', 'A'), ('B', 'B'), ('D', 'H')]`; a literal character is a
      one-character range. */
  type CharClass = seq<(char, char)>

  /** One element of a pattern. `Repeat(cls, lo, hi)` is a class with the
      quantifier `{lo,hi}`: no quantifier is `{1,1}` and `?` is `{0,1}`. */
  datatype Node =
    | Boundary
    | Repeat(cls: CharClass, lo: nat, hi: nat)

  predicate IsUpperAscii(c: char) { 'A' <= c <= 'Z' }

  predicate IsLowerAscii(c: char) { 'a' <= c <= 'z' }

  predicate IsAsciiLetter(c: char) { IsUpperAscii(c) || IsLowerAscii(c) }

  predicate IsAsciiDigit(c: char) { '0' <= c <= '9' }

  /** The characters `\b` treats as word characters: letters, digits and `_`. */
  predicate IsWordChar(c: char) { IsAsciiLetter(c) || IsAsciiDigit(c) || c == '_' }

  function Upper(c: char): (r: char)
    ensures IsLowerAscii(c) ==> IsUpperAscii(r)
    ensures !IsLowerAscii(c) ==> r == c
  {
    if IsLowerAscii(c) then (c as int - 32) as char else c
  }

  function Lower(c: char): (r: char)
    ensures IsUpperAscii(c) ==> IsLowerAscii(r)
    ensures !IsUpperAscii(c) ==> r == c
  {
    if IsUpperAscii(c) then (c as int + 32) as char else c
  }

  /** The string with every ASCII lower-case letter replaced by its upper-case form. */
  function UpperAll(s: string): (r: string)
    ensures SameFold(s, r)
    ensures forall k :: 0 <= k < |r| ==> !IsLowerAscii(r[k])
  {
    seq(|s|, k requires 0 <= k < |s| => Upper(s[k]))
  }

  /** The string with every ASCII upper-case letter replaced by its lower-case form. */
  function LowerAll(s: string): (r: string)
    ensures SameFold(s, r)
    ensures forall k :: 0 <= k < |r| ==> !IsUpperAscii(r[k])
  {
    seq(|s|, k requires 0 <= k < |s| => Lower(s[k]))
  }

  /** Two strings that differ at most in the case of their letters. */
  predicate SameFold(s: string, t: string)
  {
    |s| == |t| && forall k :: 0 <= k < |s| ==> Upper(s[k]) == Upper(t[k])
  }

  predicate InRanges(cls: CharClass, c: char)
  {
    |cls| > 0 && ((cls[0].0 <= c <= cls[0].1) || InRanges(cls[1..], c))
  }

  lemma InRangesCons(r: (char, char), rest: CharClass, c: char)
    ensures InRanges([r] + rest, c) <==> (r.0 <= c <= r.1) || InRanges(rest, c)
  {
  }

  /** Class membership under `re.IGNORECASE`: a character matches when
      either of its case forms lies in one of the ranges. */
  predicate ClassMatch(cls: CharClass, c: char)
  {
    InRanges(cls, Lower(c)) || InRanges(cls, Upper(c))
  }

  /** A class of upper-case letters matches a character exactly when the
      character's upper-case form lies in one of its ranges. */
  lemma UpperClassMatch(cls: CharClass, c: char)
    requires forall k :: 0 <= k < |cls| ==> 'A' <= cls[k].0 && cls[k].1 <= 'Z'
    ensures ClassMatch(cls, c) <==> InRanges(cls, Upper(c))
  {
  }

  /** `\b` at position `i`: a word character on exactly one side. */
  predicate AtBoundary(s: string, i: nat)
    requires i <= |s|
  {
    (i > 0 && IsWordChar(s[i - 1])) != (i < |s| && IsWordChar(s[i]))
  }

  /** The quantifier budget left on the first node, which shrinks as a
      repetition consumes characters. */
  function HeadBudget(p: seq<Node>): nat
  {
    if p != [] && p[0].Repeat? then p[0].hi else 0
  }

  /** Whether the pattern `p` matches some part of `s` that starts at `i`
      (the match may stop before the end of `s`). A repetition either
      consumes one more character of its class or, once its minimum is
      reached, hands over to the rest of the pattern; the matcher tries
      every such choice, as a backtracking engine does. */
  predicate Match(p: seq<Node>, s: string, i: nat)
    requires i <= |s|
    decreases |p|, HeadBudget(p)
  {
    if p == [] then true
    else match p[0]
      case Boundary => AtBoundary(s, i) && Match(p[1..], s, i)
      case Repeat(cls, lo, hi) =>
        if hi == 0 then lo == 0 && Match(p[1..], s, i)
        else
          (i < |s| && ClassMatch(cls, s[i])
           && Match([Repeat(cls, if lo == 0 then 0 else lo - 1, hi - 1)] + p[1..], s, i + 1))
          || (lo == 0 && Match(p[1..], s, i))
  }

  /** `re.match`: a match anchored at the start of the subject. */
  predicate MatchesPrefix(p: seq<Node>, s: string)
  {
    Match(p, s, 0)
  }

  // ---------------------------------------------------------------------
  // Case folding

  lemma ClassMatchIgnoresCase(cls: CharClass, c: char, d: char)
    requires Upper(c) == Upper(d)
    ensures ClassMatch(cls, c) == ClassMatch(cls, d)
  {
  }

  lemma BoundaryIgnoresCase(s: string, t: string, i: nat)
    requires i <= |s| && SameFold(s, t)
    ensures AtBoundary(s, i) == AtBoundary(t, i)
  {
  }

  /** Under `re.IGNORECASE` a pattern cannot tell apart two subjects that
      differ only in the case of their letters. */
  lemma {:induction false} MatchIgnoresCase(p: seq<Node>, s: string, t: string, i: nat)
    requires i <= |s| && SameFold(s, t)
    ensures Match(p, s, i) == Match(p, t, i)
    decreases |p|, HeadBudget(p)
  {
    if p != [] {
      match p[0]
      case Boundary =>
        BoundaryIgnoresCase(s, t, i);
        MatchIgnoresCase(p[1..], s, t, i);
      case Repeat(cls, lo, hi) =>
        MatchIgnoresCase(p[1..], s, t, i);
        if hi != 0 && i < |s| {
          ClassMatchIgnoresCase(cls, s[i], t[i]);
          MatchIgnoresCase([Repeat(cls, if lo == 0 then 0 else lo - 1, hi - 1)] + p[1..], s, t, i + 1);
        }
    }
  }

  // ---------------------------------------------------------------------
  // Quantifier laws: what each shape of pattern head requires of the subject

  lemma MatchBoundaryHead(r: seq<Node>, s: string, i: nat)
    requires i <= |s|
    ensures Match([Boundary] + r, s, i) <==> AtBoundary(s, i) && Match(r, s, i)
  {
  }

  /** `X` (that is `X{1,1}`) consumes exactly one character of its class. */
  lemma MatchOneHead(cls: CharClass, r: seq<Node>, s: string, i: nat)
    requires i <= |s|
    ensures Match([Repeat(cls, 1, 1)] + r, s, i)
            <==> i < |s| && ClassMatch(cls, s[i]) && Match(r, s, i + 1)
  {
  }

  /** `X?` either consumes one character of its class or nothing. */
  lemma MatchOptionalHead(cls: CharClass, r: seq<Node>, s: string, i: nat)
    requires i <= |s|
    ensures Match([Repeat(cls, 0, 1)] + r, s, i)
            <==> (i < |s| && ClassMatch(cls, s[i]) && Match(r, s, i + 1)) || Match(r, s, i)
  {
  }

  /** `X{1,2}` is `X X?`. */
  lemma MatchOneOrTwoHead(cls: CharClass, r: seq<Node>, s: string, i: nat)
    requires i <= |s|
    ensures Match([Repeat(cls, 1, 2)] + r, s, i)
            <==> i < |s| && ClassMatch(cls, s[i])
                 && ((i + 1 < |s| && ClassMatch(cls, s[i + 1]) && Match(r, s, i + 2))
                     || Match(r, s, i + 1))
  {
    assert ([Repeat(cls, 1, 2)] + r)[1..] == r;
    if i < |s| { MatchOptionalHead(cls, r, s, i + 1); }
  }

  /** `X{2}` consumes exactly two characters of its class. */
  lemma MatchTwoHead(cls: CharClass, r: seq<Node>, s: string, i: nat)
    requires i <= |s|
    ensures Match([Repeat(cls, 2, 2)] + r, s, i)
            <==> i + 1 < |s| && ClassMatch(cls, s[i]) && ClassMatch(cls, s[i + 1])
                 && Match(r, s, i + 2)
  {
    assert ([Repeat(cls, 2, 2)] + r)[1..] == r;
    if i < |s| { MatchOneHead(cls, r, s, i + 1); }
  }
}
