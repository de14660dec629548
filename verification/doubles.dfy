/**
 * The allocation loop's arithmetic as JavaScript performs it. `parseInt`
 * yields a number (an IEEE 754 double) and `digits + 1` is a double
 * addition, so from 2^53 on both round to the nearest representable value.
 * `Allocator.Step` is the exact-integer rewrite the loop is meant to
 * perform; this module keeps the rounding to show where the two part.
 */
module Doubles {
  import opened Text
  import opened Accounts
  import opened Allocator

  /** 2^53: every integer up to here is exactly a double. */
  const Two53: nat := 9007199254740992

  /** The gap between neighbouring doubles around the integer `m`: 1 below
      2^53, doubling with every further binary digit. */
  function Spacing(m: nat): (s: nat)
    ensures 1 <= s
    ensures m < Two53 ==> s == 1
  {
    if m < Two53 then 1 else 2 * Spacing(m / 2)
  }

  /** The double nearest to the integer `m`, a tie going to the neighbour
      with the even significand (round-to-nearest-even). */
  function RoundToDouble(m: nat): (r: nat)
    ensures m < Two53 ==> r == m
  {
    var s := Spacing(m);
    var lo := m - m % s;
    if m % s == 0 then m
    else if 2 * (m % s) < s then lo
    else if 2 * (m % s) > s then lo + s
    else if (lo / s) % 2 == 0 then lo
    else lo + s
  }

  /** `parseInt(run) + 1` on doubles, for the run's exact value `n`. */
  function DoubleSuccessor(n: nat): nat {
    RoundToDouble(RoundToDouble(n) + 1)
  }

  /** The loop body as written: the number is read and incremented as a double. */
  function StepAsWritten(cand: string): string {
    if HasDigit(cand) then Stem(cand) + Decimal(DoubleSuccessor(Value(cand)))
    else cand + "1"
  }

  /** Below 2^53 the rounding changes nothing: the written step is the exact one. */
  lemma StepAsWrittenBelowTwo53(cand: string)
    requires Value(cand) + 1 < Two53
    ensures StepAsWritten(cand) == Step(cand)
  {
  }

  /** At 2^53 the increment is lost: 2^53 + 1 lies halfway between 2^53 and
      2^53 + 2 and rounds to 2^53, whose significand is even. */
  lemma DoubleSuccessorStalls()
    ensures DoubleSuccessor(Two53) == Two53
  {
    assert Spacing(Two53 / 2) == 1;
    assert Spacing(Two53) == 2;
    assert Spacing(Two53 + 1) == 2;
  }

  /** Between 2^53 and 2^54 doubles are 2 apart, so for a multiple of 4 the
      increment lands halfway to the next double and rounds back down to the
      even significand: the increment is lost. */
  lemma DoubleSuccessorStallsInBinade(j: nat)
    requires 4 * j < Two53
    ensures DoubleSuccessor(Two53 + 4 * j) == Two53 + 4 * j
  {
    var n := Two53 + 4 * j;
    var half := Two53 / 2 + 2 * j;
    assert n / 2 == half && n % 2 == 0;
    assert (n + 1) / 2 == half && (n + 1) % 2 == 1;
    assert half < Two53 && half % 2 == 0;
    assert Spacing(n) == 2 && Spacing(n + 1) == 2;
    assert RoundToDouble(n) == n;
  }

  /** A stem followed by such a number is rewritten, as written, to itself. */
  lemma StepAsWrittenFixedPoint(stem: string, j: nat)
    requires 0 < |stem| && AllLowerLetters(stem)
    requires 4 * j < Two53
    ensures StepAsWritten(stem + Decimal(Two53 + 4 * j)) == stem + Decimal(Two53 + 4 * j)
  {
    CanonicalParts(stem, Two53 + 4 * j);
    DoubleSuccessorStallsInBinade(j);
  }

  /** A candidate the rewrite maps to itself is every later candidate too. */
  lemma {:induction false} FixedPointRepeats(rewrite: string -> string, c: string, k: nat)
    requires rewrite(c) == c
    ensures Candidate(rewrite, c, k) == c
  {
    if k > 0 {
      FixedPointRepeats(rewrite, c, k - 1);
    }
  }

  /** Once `stem` followed by such a number is taken, every candidate the
      written loop looks up is that same taken name, so the loop never exits. */
  lemma AsWrittenLoopNeverExits(repo: Repo, stem: string, j: nat, k: nat)
    requires 0 < |stem| && AllLowerLetters(stem)
    requires 4 * j < Two53
    requires stem + Decimal(Two53 + 4 * j) in repo
    ensures Candidate(StepAsWritten, stem + Decimal(Two53 + 4 * j), k) == stem + Decimal(Two53 + 4 * j)
    ensures Candidate(StepAsWritten, stem + Decimal(Two53 + 4 * j), k) in repo
  {
    StepAsWrittenFixedPoint(stem, j);
    FixedPointRepeats(StepAsWritten, stem + Decimal(Two53 + 4 * j), k);
  }

  /** The exact rewrite never maps a stem and number to itself: the loop it
      drives always moves on to a new candidate. */
  lemma ExactStepMovesOn(stem: string, n: nat)
    requires 0 < |stem| && AllLowerLetters(stem)
    ensures Step(stem + Decimal(n)) == stem + Decimal(n + 1)
    ensures Step(stem + Decimal(n)) != stem + Decimal(n)
  {
    StepCanonical(stem, n);
    CanonicalParts(stem, n);
    CanonicalParts(stem, n + 1);
  }

  /** Appending a digit to a positive number appends its character to the text. */
  lemma DecimalAppendDigit(n: nat, d: nat)
    requires 0 < n && d < 10
    ensures Decimal(10 * n + d) == Decimal(n) + [DigitChar(d)]
  {
    assert (10 * n + d) / 10 == n && (10 * n + d) % 10 == d;
  }

  /** The decimal text of 2^53 without its last digit. */
  lemma Two53Prefix()
    ensures Decimal(900719925474099) == "900719925474099"
  {
    assert Decimal(9) == "9";
    assert Decimal(90) == "90";
    assert Decimal(900) == "900";
    assert Decimal(9007) == "9007";
    assert Decimal(90071) == "90071";
    assert Decimal(900719) == "900719";
    assert Decimal(9007199) == "9007199";
    assert Decimal(90071992) == "90071992";
    assert Decimal(900719925) == "900719925";
    assert Decimal(9007199254) == "9007199254";
    assert Decimal(90071992547) == "90071992547";
    assert Decimal(900719925474) == "900719925474";
    assert Decimal(9007199254740) == "9007199254740";
    assert Decimal(90071992547409) == "90071992547409";
  }

  /** The decimal text of 2^53. */
  lemma Two53Digits()
    ensures Decimal(Two53) == "9007199254740992"
  {
    Two53Prefix();
    DecimalAppendDigit(900719925474099, 2);
  }

  /** The decimal text of 2^53 + 1. */
  lemma Two53SuccessorDigits()
    ensures Decimal(Two53 + 1) == "9007199254740993"
  {
    Two53Prefix();
    DecimalAppendDigit(900719925474099, 3);
  }

  /** First name "A" and last name "B" followed by digits seed `ab` followed
      by the same digits; with 2^53's digits this is the example's seed. */
  lemma StallingSeed(ds: string)
    requires AllDigits(ds)
    ensures Seed("A", "B" + ds) == "ab" + ds
  {
    var s := Seed("A", "B" + ds);
    assert s[0] == 'a' && s[1..][0] == 'b';
    forall i | 2 <= i < |s|
      ensures s[i] == ("ab" + ds)[i]
    {
      assert s[i] == s[1..][i - 1] == LowerChar(("B" + ds)[i - 1]);
      assert ("B" + ds)[i - 1] == ds[i - 2];
    }
  }

  /** The example's candidates, as text: `ab` followed by 2^53 and by 2^53 + 1. */
  lemma ExampleCandidates()
    ensures "ab" + Decimal(Two53) == "ab9007199254740992"
    ensures "ab" + Decimal(Two53 + 1) == "ab9007199254740993"
  {
    Two53Digits();
    Two53SuccessorDigits();
  }

  /** For "A B9007199254740992", once the seed `ab9007199254740992` is taken
      the written loop looks up that taken name again and again: creating the
      account a second time never returns. */
  lemma AsWrittenStallsOnExample(repo: Repo, k: nat)
    requires "ab9007199254740992" in repo
    ensures Candidate(StepAsWritten, "ab" + Decimal(Two53), k) == "ab9007199254740992"
    ensures Candidate(StepAsWritten, "ab" + Decimal(Two53), k) in repo
  {
    ExampleCandidates();
    AsWrittenLoopNeverExits(repo, "ab", 0, k);
  }

  /** The exact rewrite moves on from the same candidate to `ab9007199254740993`. */
  lemma ExactStepPastTwo53()
    ensures Step("ab" + Decimal(Two53)) == "ab" + Decimal(Two53 + 1)
    ensures Step("ab" + Decimal(Two53)) != "ab" + Decimal(Two53)
  {
    StepCanonical("ab", Two53);
    ExampleCandidates();
  }
}
