/** The password-strength meter of the sign-up form: a score built from five
    criteria, a bar width, a colour and a text. It is advisory only; sign-up does
    not consult it. */
module Strength {
  import opened Strings

  const StrongColor := "#10b981"
  const GoodColor := "#f59e0b"
  const FairColor := "#f97316"
  const WeakColor := "#ef4444"

  const StrongText := "Strong password"
  const GoodText := "Good password"
  const FairText := "Fair password"
  const WeakText := "Weak password"

  /** The hints for the four 25-point criteria, in the order the meter checks them. */
  const LengthHint := "at least 8 characters"
  const LowercaseHint := "lowercase letter"
  const UppercaseHint := "uppercase letter"
  const NumberHint := "number"
  const Hints := [LengthHint, LowercaseHint, UppercaseHint, NumberHint]

  predicate IsLowercase(c: char) { 'a' <= c <= 'z' }
  predicate IsUppercase(c: char) { 'A' <= c <= 'Z' }
  predicate IsDigit(c: char) { '0' <= c <= '9' }

  /** Some character of `p` satisfies `test` (`/[...]/.test(p)` for a one-character class). */
  predicate HasSome(p: string, test: char -> bool) {
    exists i :: 0 <= i < |p| && test(p[i])
  }

  /** The four 25-point criteria: length at least 8, a lowercase letter, an uppercase
      letter, a digit. */
  function Criteria(p: string): (c: seq<bool>)
    ensures |c| == 4
  {
    [|p| >= 8, HasSome(p, IsLowercase), HasSome(p, IsUppercase), HasSome(p, IsDigit)]
  }

  /** The 10-point criterion: a character that is neither an ASCII letter nor a digit. */
  predicate HasSymbol(p: string) {
    HasSome(p, c => !IsLowercase(c) && !IsUppercase(c) && !IsDigit(c))
  }

  /** The number of criteria met. */
  function CountMet(c: seq<bool>): nat {
    if |c| == 0 then 0 else (if c[0] then 1 else 0) + CountMet(c[1..])
  }

  lemma CountMetFour(c: seq<bool>)
    requires |c| == 4
    ensures CountMet(c) == (if c[0] then 1 else 0) + (if c[1] then 1 else 0)
                           + (if c[2] then 1 else 0) + (if c[3] then 1 else 0)
  {
    assert CountMet(c[3..]) == (if c[3] then 1 else 0) by {
      assert c[3..][1..] == [];
    }
    assert c[2..][1..] == c[3..];
    assert CountMet(c[2..]) == (if c[2] then 1 else 0) + CountMet(c[3..]);
    assert c[1..][1..] == c[2..];
    assert CountMet(c[1..]) == (if c[1] then 1 else 0) + CountMet(c[2..]);
  }

  /** The score: 25 for each criterion met, plus 10 for a symbol. */
  function Score(p: string): (r: nat)
    ensures r == 25 * CountMet(Criteria(p)) + (if HasSymbol(p) then 10 else 0)
    ensures r <= 110
  {
    var c := Criteria(p);
    CountMetFour(c);
    (if c[0] then 25 else 0) + (if c[1] then 25 else 0) + (if c[2] then 25 else 0)
    + (if c[3] then 25 else 0) + (if HasSymbol(p) then 10 else 0)
  }

  /** The hints for the unmet criteria, in the fixed order. */
  function Feedback(p: string): (r: seq<string>)
    ensures |r| == 4 - CountMet(Criteria(p))
    ensures forall i :: 0 <= i < 4 ==> (Hints[i] in r <==> !Criteria(p)[i])
    ensures forall h :: h in r ==> h in Hints
    ensures forall a, b :: 0 <= a < b < |r| ==>
      exists i, j :: 0 <= i < j < 4 && r[a] == Hints[i] && r[b] == Hints[j]
  {
    var c := Criteria(p);
    CountMetFour(c);
    (if c[0] then [] else [LengthHint]) + (if c[1] then [] else [LowercaseHint])
    + (if c[2] then [] else [UppercaseHint]) + (if c[3] then [] else [NumberHint])
  }

  function Min(a: int, b: int): int { if a <= b then a else b }

  datatype Meter = Meter(percentage: int, color: string, text: string)

  /** `calculatePasswordStrength`. */
  function CalculatePasswordStrength(p: string): (r: Meter)
    ensures 0 <= r.percentage <= 100
    ensures r.percentage == Min(Score(p), 100)
    ensures Score(p) <= 100 ==> r.percentage == Score(p)
    ensures r.color == StrongColor <==> Score(p) >= 80
    ensures r.color == GoodColor <==> 60 <= Score(p) < 80
    ensures r.color == FairColor <==> 40 <= Score(p) < 60
    ensures r.color == WeakColor <==> Score(p) < 40
    ensures r.text == StrongText <==> Score(p) >= 80
  {
    var score := Score(p);
    var feedback := Feedback(p);
    var color := if score >= 80 then StrongColor
                 else if score >= 60 then GoodColor
                 else if score >= 40 then FairColor
                 else WeakColor;
    var rating := if score >= 80 then StrongText
                 else if score >= 60 then GoodText
                 else if score >= 40 then FairText
                 else WeakText;
    var text := if |feedback| > 0 && score < 80
                then "Add: " + Join(feedback[..Min(2, |feedback|)], ", ")
                else rating;
    Meter(Min(score, 100), color, text)
  }

  /** The score and the hint list say the same thing: each unmet criterion costs
      25 points and adds exactly its hint. */
  lemma ScoreMatchesFeedback(p: string)
    ensures Score(p) == 25 * (4 - |Feedback(p)|) + (if HasSymbol(p) then 10 else 0)
    ensures forall i :: 0 <= i < 4 ==> (Hints[i] in Feedback(p) <==> !Criteria(p)[i])
  {
  }

  /** When the score is below 80 the text is always the hint, never a rating: some
      25-point criterion must be missing, so the hint list is never empty there. The
      "Good", "Fair" and "Weak" texts are therefore never shown; only the colour
      tells those ratings apart. */
  lemma TextIsStrongOrHint(p: string)
    ensures var r := CalculatePasswordStrength(p);
      r.text == StrongText || r.text[..5] == "Add: "
    ensures Score(p) < 80 ==>
      CalculatePasswordStrength(p).text
        == "Add: " + Join(Feedback(p)[..Min(2, |Feedback(p)|)], ", ")
  {
    ScoreMatchesFeedback(p);
  }

  /** "Ab" has a lowercase and an uppercase letter and nothing else the meter rewards. */
  lemma ShortLettersOnly()
    ensures Criteria("Ab") == [false, true, true, false]
    ensures !HasSymbol("Ab")
  {
    var p := "Ab";
    assert HasSome(p, IsLowercase) by { assert IsLowercase(p[1]); }
    assert HasSome(p, IsUppercase) by { assert IsUppercase(p[0]); }
    assert !HasSome(p, IsDigit) by {
      forall i | 0 <= i < |p| ensures !IsDigit(p[i]) { }
    }
    assert !HasSymbol(p) by {
      forall i | 0 <= i < |p| ensures IsLowercase(p[i]) || IsUppercase(p[i]) { }
    }
  }

  /** A password that misses the length, a digit and a symbol, and has letters of both
      cases (such as "Ab"), scores 50 (fair) and is told to add those two, in that order. */
  lemma HintNamesFirstTwoMissing(p: string)
    requires Criteria(p) == [false, true, true, false]
    requires !HasSymbol(p)
    ensures CalculatePasswordStrength(p).text == "Add: " + LengthHint + ", " + NumberHint
    ensures CalculatePasswordStrength(p).color == FairColor
  {
    assert 40 <= Score(p) < 60;
    var f := Feedback(p);
    assert f == [LengthHint, NumberHint];
    assert f[..Min(2, |f|)] == f;
    assert Join(f, ", ") == LengthHint + ", " + NumberHint by {
      assert f[1..] == [NumberHint];
    }
  }

  /** "Ab" is rated fair and told to add length and a number. */
  lemma AbIsFair()
    ensures CalculatePasswordStrength("Ab").text == "Add: " + LengthHint + ", " + NumberHint
    ensures CalculatePasswordStrength("Ab").color == FairColor
  {
    ShortLettersOnly();
    HintNamesFirstTwoMissing("Ab");
  }
}
