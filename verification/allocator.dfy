/**
 * Username allocation. A seed is derived from the
 * names; while the repository already holds the candidate, the candidate is
 * rewritten by `Step` and looked up again.
 */
module Allocator {
  import opened Wrappers
  import opened Text
  import opened Accounts

  /** `first_name.toLowerCase().charAt(0)` followed by `last_name.toLowerCase()`. */
  function Seed(first_name: string, last_name: string): (s: string)
    ensures 0 < |first_name| ==> |s| == 1 + |last_name| && s[0] == LowerChar(first_name[0])
    ensures 0 < |first_name| ==> s[1..] == ToLower(last_name)
    ensures |first_name| == 0 ==> s == ToLower(last_name)
  {
    var initial := if |first_name| == 0 then "" else [LowerChar(first_name[0])];
    initial + ToLower(last_name)
  }

  /** The letters kept by a rewrite: the `[a-z]` letters of the candidate, or the
      text `undefined` when it has none (joining an absent match yields it). */
  function Stem(cand: string): string {
    var letters := LowerLetters(cand);
    if |letters| == 0 then "undefined" else letters
  }

  /** A stem is a non-empty run of lower-case letters, and is the candidate's
      own letters whenever it has any. */
  lemma StemShape(cand: string)
    ensures 0 < |Stem(cand)| && AllLowerLetters(Stem(cand)) && NoDigits(Stem(cand))
    ensures 0 < |LowerLetters(cand)| ==> Stem(cand) == LowerLetters(cand)
  {
    LowerLettersShape(cand);
  }

  /** The number a rewrite increments: `parseInt` of the first digit run (0 without digits). */
  function Value(cand: string): nat {
    ParseDigits(FirstDigitRun(cand))
  }

  /** One rewrite of a taken candidate, as the loop body performs it. */
  function Step(cand: string): string {
    if HasDigit(cand) then Stem(cand) + Decimal(Value(cand) + 1)
    else cand + "1"
  }

  /** A stem followed by a decimal number rewrites to the same stem and the next number. */
  lemma {:induction false} StepCanonical(stem: string, n: nat)
    requires 0 < |stem| && AllLowerLetters(stem)
    ensures Step(stem + Decimal(n)) == stem + Decimal(n + 1)
  {
    CanonicalParts(stem, n);
  }

  /** A stem followed by a decimal number has a digit, keeps that stem and carries that number. */
  lemma CanonicalParts(stem: string, n: nat)
    requires 0 < |stem| && AllLowerLetters(stem)
    ensures HasDigit(stem + Decimal(n))
    ensures Stem(stem + Decimal(n)) == stem
    ensures Value(stem + Decimal(n)) == n
  {
    var c := stem + Decimal(n);
    assert NoDigits(stem);
    FirstRunAfterPrefix(stem, Decimal(n));
    ParseDecimal(n);
    LettersAppend(stem, Decimal(n));
    LettersOfDigits(Decimal(n));
    LettersOfLetters(stem);
    assert LowerLetters(c) == stem;
    HasDigitAt(c, |stem|);
  }

  /** Every rewrite yields a candidate with a digit, with the same stem, and
      a taken candidate that already had a digit has its number increased by one. */
  lemma {:induction false} StepProgress(cand: string)
    ensures HasDigit(Step(cand))
    ensures Stem(Step(cand)) == Stem(cand)
    ensures HasDigit(cand) ==> Value(Step(cand)) == Value(cand) + 1
  {
    var next := Step(cand);
    if HasDigit(cand) {
      StemShape(cand);
      var s := Stem(cand);
      var d := Decimal(Value(cand) + 1);
      assert next == s + d;
      HasDigitAt(next, |s|);
      FirstRunAfterPrefix(s, d);
      ParseDecimal(Value(cand) + 1);
      LettersAppend(s, d);
      LettersOfDigits(d);
      LettersOfLetters(s);
    } else {
      HasDigitAt(next, |cand|);
      LettersAppend(cand, "1");
      LettersOfDigits("1");
      assert LowerLetters(next) == LowerLetters(cand);
    }
  }

  /** The code's rewrite always yields a digit, keeps the stem, and advances the number. */
  lemma StepAdvances()
    ensures Advancing(Step)
  {
    forall x
      ensures HasDigit(Step(x))
      ensures HasDigit(x) ==> Value(Step(x)) == Value(x) + 1
    {
      StepProgress(x);
    }
  }

  /** What the loop needs of a rewrite rule: the result has a digit, and a
      candidate that had a digit gets its number advanced by one. */
  ghost predicate Advancing(rewrite: string -> string) {
    && (forall x {:trigger HasDigit(rewrite(x))} :: HasDigit(rewrite(x)))
    && (forall x {:trigger Value(rewrite(x))} :: HasDigit(x) ==> Value(rewrite(x)) == Value(x) + 1)
  }

  /** A taken candidate's number is below `10^|cand|`, so below a bound fixed by the repository. */
  lemma ValueBound(repo: Repo, cand: string)
    requires cand in repo
    ensures Value(cand) < Pow10(MaxLen(repo.Keys))
  {
    ParseDigitsBound(FirstDigitRun(cand));
    FirstDigitRunFound(cand);
    PowMonotone(|FirstDigitRun(cand)|, MaxLen(repo.Keys));
  }

  lemma {:induction false} PowMonotone(a: nat, b: nat)
    requires a <= b
    ensures Pow10(a) <= Pow10(b)
  {
    if a < b {
      PowMonotone(a, b - 1);
    }
  }

  /** The termination measure of the loop: digit-free candidates come first,
      then the distance of the number to a bound no taken candidate reaches. */
  ghost function Headroom(repo: Repo, cand: string): int {
    Pow10(MaxLen(repo.Keys)) - Value(cand)
  }

  /** The loop `while (user) { ... }`: from `cand` on, rewrite while the
      repository holds the candidate, and return the first one it does not. */
  function FirstFree(repo: Repo, rewrite: string -> string, cand: string): (r: string)
    requires Advancing(rewrite)
    ensures r !in repo
    ensures r != cand ==> HasDigit(r) && cand in repo
    decreases if HasDigit(cand) then 0 else 1, Headroom(repo, cand)
  {
    if cand !in repo then cand
    else
      ValueBound(repo, cand);
      FirstFree(repo, rewrite, rewrite(cand))
  }

  /** A taken candidate defers to its rewrite. */
  lemma FirstFreeTaken(repo: Repo, rewrite: string -> string, cand: string)
    requires Advancing(rewrite)
    requires cand in repo
    ensures FirstFree(repo, rewrite, cand) == FirstFree(repo, rewrite, rewrite(cand))
  {
  }

  /** The loop with the code's rewrite, from `cand`. */
  function AllocateFrom(repo: Repo, cand: string): (r: string)
    ensures r !in repo
    ensures cand !in repo ==> r == cand
    ensures r != cand ==> cand in repo && HasDigit(r)
  {
    StepAdvances();
    FirstFree(repo, Step, cand)
  }

  /** `checkAndCreateUsername`: allocation from the seed. */
  function CheckAndCreateUsername(repo: Repo, first_name: string, last_name: string): (r: string)
    ensures r !in repo
    ensures Seed(first_name, last_name) !in repo ==> r == Seed(first_name, last_name)
    ensures r != Seed(first_name, last_name) ==> Seed(first_name, last_name) in repo && HasDigit(r)
  {
    AllocateFrom(repo, Seed(first_name, last_name))
  }

  /** The candidate after `k` rewrites of `seed`. */
  function Candidate(rewrite: string -> string, seed: string, k: nat): string {
    if k == 0 then seed else rewrite(Candidate(rewrite, seed, k - 1))
  }

  /** The number of iterations the loop performs from `cand`. */
  ghost function Rewrites(repo: Repo, rewrite: string -> string, cand: string): nat
    requires Advancing(rewrite)
    decreases if HasDigit(cand) then 0 else 1, Headroom(repo, cand)
  {
    if cand !in repo then 0
    else
      ValueBound(repo, cand);
      1 + Rewrites(repo, rewrite, rewrite(cand))
  }

  lemma {:induction false} CandidateShift(rewrite: string -> string, cand: string, j: nat)
    ensures Candidate(rewrite, rewrite(cand), j) == Candidate(rewrite, cand, j + 1)
  {
    if j > 0 {
      CandidateShift(rewrite, cand, j - 1);
    }
  }

  /** The allocated name is the candidate after `Rewrites` rewrites. */
  lemma {:induction false} FirstFreeIsCandidate(repo: Repo, rewrite: string -> string, cand: string)
    requires Advancing(rewrite)
    ensures FirstFree(repo, rewrite, cand) == Candidate(rewrite, cand, Rewrites(repo, rewrite, cand))
    decreases if HasDigit(cand) then 0 else 1, Headroom(repo, cand)
  {
    if cand in repo {
      ValueBound(repo, cand);
      FirstFreeIsCandidate(repo, rewrite, rewrite(cand));
      CandidateShift(rewrite, cand, Rewrites(repo, rewrite, rewrite(cand)));
    }
  }

  lemma TakenWhileRewriting(repo: Repo, rewrite: string -> string, cand: string)
    requires Advancing(rewrite)
    requires 0 < Rewrites(repo, rewrite, cand)
    ensures cand in repo
  {
  }

  /** Every candidate before the allocated one was taken. */
  lemma {:induction false} EarlierCandidatesTaken(repo: Repo, rewrite: string -> string, cand: string, j: nat)
    requires Advancing(rewrite)
    requires j < Rewrites(repo, rewrite, cand)
    ensures Candidate(rewrite, cand, j) in repo
    decreases if HasDigit(cand) then 0 else 1, Headroom(repo, cand)
  {
    TakenWhileRewriting(repo, rewrite, cand);
    if j > 0 {
      ValueBound(repo, cand);
      EarlierCandidatesTaken(repo, rewrite, rewrite(cand), j - 1);
      CandidateShift(rewrite, cand, j - 1);
    }
  }

  /** From the first rewrite on (or from the seed, if it has a digit), every
      candidate has a digit and its number grows by exactly one per rewrite. */
  lemma {:induction false} CandidateValue(rewrite: string -> string, seed: string, i: nat, j: nat)
    requires Advancing(rewrite)
    requires i <= j
    requires 1 <= i || HasDigit(seed)
    ensures HasDigit(Candidate(rewrite, seed, j))
    ensures Value(Candidate(rewrite, seed, j)) == Value(Candidate(rewrite, seed, i)) + (j - i)
  {
    if j > i {
      CandidateValue(rewrite, seed, i, j - 1);
      var prev := Candidate(rewrite, seed, j - 1);
      assert Candidate(rewrite, seed, j) == rewrite(prev);
      assert HasDigit(rewrite(prev));
      assert Value(rewrite(prev)) == Value(prev) + 1;
    } else if i > 0 {
      var prev := Candidate(rewrite, seed, i - 1);
      assert Candidate(rewrite, seed, j) == rewrite(prev);
      assert HasDigit(rewrite(prev));
    }
  }

  /** The candidates are pairwise distinct. */
  lemma CandidatesDistinct(rewrite: string -> string, seed: string, i: nat, j: nat)
    requires Advancing(rewrite)
    requires i < j
    ensures Candidate(rewrite, seed, i) != Candidate(rewrite, seed, j)
  {
    if i == 0 && !HasDigit(seed) {
      CandidateValue(rewrite, seed, j, j);
    } else {
      CandidateValue(rewrite, seed, i, j);
    }
  }

  /** The first `k` candidates. */
  ghost function Visited(rewrite: string -> string, seed: string, k: nat): set<string> {
    if k == 0 then {} else Visited(rewrite, seed, k - 1) + {Candidate(rewrite, seed, k - 1)}
  }

  lemma {:induction false} VisitedMember(rewrite: string -> string, seed: string, k: nat, x: string)
    requires x in Visited(rewrite, seed, k)
    ensures exists j :: 0 <= j < k && x == Candidate(rewrite, seed, j)
  {
    if x != Candidate(rewrite, seed, k - 1) {
      VisitedMember(rewrite, seed, k - 1, x);
    }
  }

  /** Each candidate is new: none of the earlier ones equals it. */
  lemma VisitedFresh(rewrite: string -> string, seed: string, k: nat)
    requires Advancing(rewrite)
    ensures Candidate(rewrite, seed, k) !in Visited(rewrite, seed, k)
  {
    var last := Candidate(rewrite, seed, k);
    if last in Visited(rewrite, seed, k) {
      VisitedMember(rewrite, seed, k, last);
      var j :| 0 <= j < k && last == Candidate(rewrite, seed, j);
      CandidatesDistinct(rewrite, seed, j, k);
    }
  }

  lemma {:induction false} VisitedSize(rewrite: string -> string, seed: string, k: nat)
    requires Advancing(rewrite)
    ensures |Visited(rewrite, seed, k)| == k
  {
    if k > 0 {
      VisitedSize(rewrite, seed, k - 1);
      VisitedFresh(rewrite, seed, k - 1);
    }
  }

  /** The loop performs at most as many lookups that hit as the repository has accounts. */
  lemma RewritesBound(repo: Repo, rewrite: string -> string, cand: string)
    requires Advancing(rewrite)
    ensures Rewrites(repo, rewrite, cand) <= |repo|
  {
    var k := Rewrites(repo, rewrite, cand);
    var visited := Visited(rewrite, cand, k);
    VisitedSize(rewrite, cand, k);
    forall x | x in visited
      ensures x in repo.Keys
    {
      VisitedMember(rewrite, cand, k, x);
      var j :| 0 <= j < k && x == Candidate(rewrite, cand, j);
      EarlierCandidatesTaken(repo, rewrite, cand, j);
    }
    assert visited <= repo.Keys;
    SubsetSize(visited, repo.Keys);
  }

  lemma SubsetSize(a: set<string>, b: set<string>)
    requires a <= b
    ensures |a| <= |b|
  {
    assert b == a + (b - a);
  }

  /** Rewriting keeps the stem of the seed. */
  lemma {:induction false} CandidateStem(seed: string, j: nat)
    ensures Stem(Candidate(Step, seed, j)) == Stem(seed)
  {
    if j > 0 {
      CandidateStem(seed, j - 1);
      StepProgress(Candidate(Step, seed, j - 1));
    }
  }

  /** After the first rewrite, the k-th candidate is the seed's stem followed by
      the first rewrite's number advanced by k - 1. */
  lemma CandidateClosedForm(seed: string, k: nat)
    requires 2 <= k
    ensures Candidate(Step, seed, k) == Stem(seed) + Decimal(Value(Candidate(Step, seed, 1)) + k - 1)
  {
    StepAdvances();
    var prev := Candidate(Step, seed, k - 1);
    CandidateValue(Step, seed, 1, k - 1);
    CandidateStem(seed, k - 1);
    assert Candidate(Step, seed, k) == Step(prev);
  }

  lemma LettersHaveNoDigit(s: string)
    requires AllLowerLetters(s)
    ensures !HasDigit(s)
  {
    if HasDigit(s) {
      HasDigitIff(s);
    }
  }

  /** A seed made of lower-case letters is followed by the seed with 1, 2, 3, ... appended. */
  lemma {:induction false} LetterSeedCandidates(seed: string, k: nat)
    requires 0 < |seed| && AllLowerLetters(seed)
    requires 1 <= k
    ensures Candidate(Step, seed, k) == seed + Decimal(k)
  {
    if k == 1 {
      LettersHaveNoDigit(seed);
      assert Decimal(1) == "1";
    } else {
      LetterSeedCandidates(seed, k - 1);
      StepCanonical(seed, k - 1);
    }
  }

  /** A candidate with a digit splits into a digit-free head, its first digit
      run, and a rest that does not continue the run; the rewrite keeps the
      letters of head and rest and appends the run's number plus one. */
  lemma StepDecomposed(head: string, run: string, rest: string)
    requires NoDigits(head) && AllDigits(run) && 0 < |run|
    requires |rest| == 0 || !IsDigit(rest[0])
    ensures Step(head + run + rest) == Stem(head + rest) + Decimal(ParseDigits(run) + 1)
  {
    var c := head + run + rest;
    HasDigitAt(c, |head|);
    StemSkipsDigits(head, run, rest);
    FirstRunOfSplit(head, run, rest);
    StepByParts(c, run, Stem(head + rest));
  }

  lemma StepByParts(c: string, run: string, stem: string)
    requires HasDigit(c) && AllDigits(run)
    requires FirstDigitRun(c) == run && Stem(c) == stem
    ensures Step(c) == stem + Decimal(ParseDigits(run) + 1)
  {
  }

  lemma StemSkipsDigits(head: string, run: string, rest: string)
    requires AllDigits(run)
    ensures Stem(head + run + rest) == Stem(head + rest)
  {
    LettersAppend(head + run, rest);
    LettersAppend(head, run);
    LettersOfDigits(run);
    LettersAppend(head, rest);
  }

  /** Climbing from `seed + i`: the first free numbered candidate is returned. */
  lemma {:induction false} LetterSeedClimb(repo: Repo, seed: string, i: nat, k: nat)
    requires 0 < |seed| && AllLowerLetters(seed)
    requires 1 <= i <= k
    requires forall j :: i <= j < k ==> seed + Decimal(j) in repo
    requires seed + Decimal(k) !in repo
    ensures AllocateFrom(repo, seed + Decimal(i)) == seed + Decimal(k)
    decreases k - i
  {
    if i < k {
      StepCanonical(seed, i);
      StepAdvances();
      FirstFreeTaken(repo, Step, seed + Decimal(i));
      LetterSeedClimb(repo, seed, i + 1, k);
    }
  }

  /** For a seed made of lower-case letters, allocation returns the seed with the
      smallest k >= 1 appended such that the seed and seed1 .. seed(k-1) are taken. */
  lemma LetterSeedAllocation(repo: Repo, seed: string, k: nat)
    requires 0 < |seed| && AllLowerLetters(seed)
    requires seed in repo
    requires 1 <= k
    requires forall j :: 1 <= j < k ==> seed + Decimal(j) in repo
    requires seed + Decimal(k) !in repo
    ensures AllocateFrom(repo, seed) == seed + Decimal(k)
  {
    LettersHaveNoDigit(seed);
    assert Decimal(1) == "1";
    StepAdvances();
    FirstFreeTaken(repo, Step, seed);
    LetterSeedClimb(repo, seed, 1, k);
  }

  /** "Ada Lovelace" is seeded as `alovelace`. */
  lemma AdaLovelaceSeed()
    ensures Seed("Ada", "Lovelace") == "alovelace"
  {
    assert ToLower("Lovelace") == "lovelace";
  }

  /** `alovelace` is allocated when it is free. */
  lemma AdaLovelaceFree(repo: Repo)
    requires "alovelace" !in repo
    ensures CheckAndCreateUsername(repo, "Ada", "Lovelace") == "alovelace"
  {
    AdaLovelaceSeed();
  }

  lemma AlovelaceSuffixes()
    ensures 0 < |"alovelace"| && AllLowerLetters("alovelace")
    ensures "alovelace" + Decimal(1) == "alovelace1"
    ensures "alovelace" + Decimal(2) == "alovelace2"
  {
    assert Decimal(1) == "1";
    assert Decimal(2) == "2";
  }

  /** `alovelace1` is allocated when only `alovelace` is taken. */
  lemma AdaLovelaceTakenOnce(repo: Repo)
    requires "alovelace" in repo && "alovelace1" !in repo
    ensures CheckAndCreateUsername(repo, "Ada", "Lovelace") == "alovelace1"
  {
    AdaLovelaceSeed();
    AlovelaceSuffixes();
    LetterSeedAllocation(repo, "alovelace", 1);
  }

  /** `alovelace2`, never `alovelace11`, is allocated when `alovelace` and
      `alovelace1` are taken. */
  lemma AdaLovelaceTakenTwice(repo: Repo)
    requires "alovelace" in repo && "alovelace1" in repo && "alovelace2" !in repo
    ensures CheckAndCreateUsername(repo, "Ada", "Lovelace") == "alovelace2"
  {
    AdaLovelaceSeed();
    AlovelaceSuffixes();
    LetterSeedAllocation(repo, "alovelace", 2);
  }
}
