/**
 * ASCII text helpers: case mapping, the `\d` and `[a-z]` character classes,
 * decimal rendering (`Number.prototype.toString`) and parsing (`parseInt`)
 * of non-negative integers, the first-digit-run regex match, and `Array.join`.
 */
module Text {

  predicate IsDigit(c: char) { '0' <= c <= '9' }

  predicate IsLowerLetter(c: char) { 'a' <= c <= 'z' }

  predicate IsUpperLetter(c: char) { 'A' <= c <= 'Z' }

  predicate AllDigits(s: string) { forall i :: 0 <= i < |s| ==> IsDigit(s[i]) }

  predicate NoDigits(s: string) { forall i :: 0 <= i < |s| ==> !IsDigit(s[i]) }

  predicate AllLowerLetters(s: string) { forall i :: 0 <= i < |s| ==> IsLowerLetter(s[i]) }

  /** The regex test `/\d/.test(s)`. */
  predicate HasDigit(s: string) {
    0 < |s| && (IsDigit(s[0]) || HasDigit(s[1..]))
  }

  /** `HasDigit` holds exactly when some position holds a digit. */
  lemma {:induction false} HasDigitIff(s: string)
    ensures HasDigit(s) <==> exists i :: 0 <= i < |s| && IsDigit(s[i])
  {
    if 0 < |s| {
      HasDigitIff(s[1..]);
      if HasDigit(s[1..]) {
        var i :| 0 <= i < |s[1..]| && IsDigit(s[1..][i]);
        assert IsDigit(s[i + 1]);
      }
      if exists i :: 0 <= i < |s| && IsDigit(s[i]) {
        var i :| 0 <= i < |s| && IsDigit(s[i]);
        if i > 0 {
          assert IsDigit(s[1..][i - 1]);
        }
      }
    }
  }

  lemma HasDigitAt(s: string, i: nat)
    requires i < |s| && IsDigit(s[i])
    ensures HasDigit(s)
  {
    HasDigitIff(s);
  }

  /** `toLowerCase` on one character, restricted to ASCII: upper-case letters
      map to their lower-case partner, everything else is left as it is. */
  function LowerChar(c: char): (r: char)
    ensures !IsUpperLetter(r)
    ensures r != c <==> IsUpperLetter(c)
    ensures IsLowerLetter(r) <==> IsLowerLetter(c) || IsUpperLetter(c)
  {
    if IsUpperLetter(c) then (c as int + 32) as char else c
  }

  /** `toUpperCase` on one character, restricted to ASCII. */
  function UpperChar(c: char): (r: char)
    ensures !IsLowerLetter(r)
    ensures r != c <==> IsLowerLetter(c)
    ensures IsUpperLetter(r) <==> IsUpperLetter(c) || IsLowerLetter(c)
  {
    if IsLowerLetter(c) then (c as int - 32) as char else c
  }

  /** The two case mappings undo each other on the letters they change, and
      upper-casing forgets any earlier lower-casing. */
  lemma CaseRoundTrip(c: char)
    ensures IsUpperLetter(c) ==> UpperChar(LowerChar(c)) == c
    ensures IsLowerLetter(c) ==> LowerChar(UpperChar(c)) == c
    ensures UpperChar(LowerChar(c)) == UpperChar(c)
  {
  }

  function ToLower(s: string): (r: string)
    ensures |r| == |s|
    ensures forall i :: 0 <= i < |r| ==> !IsUpperLetter(r[i])
  {
    seq(|s|, i requires 0 <= i < |s| => LowerChar(s[i]))
  }

  function ToUpper(s: string): (r: string)
    ensures |r| == |s|
    ensures forall i :: 0 <= i < |r| ==> !IsLowerLetter(r[i])
  {
    seq(|s|, i requires 0 <= i < |s| => UpperChar(s[i]))
  }

  /** Upper-casing is blind to an earlier lower-casing, so a comparison after
      `toUpperCase` ignores the letter case of its input. */
  lemma ToUpperOfToLower(s: string)
    ensures ToUpper(ToLower(s)) == ToUpper(s)
  {
    forall i | 0 <= i < |s|
      ensures ToUpper(ToLower(s))[i] == ToUpper(s)[i]
    {
      CaseRoundTrip(s[i]);
    }
  }

  function Pow10(n: nat): (r: nat)
    ensures r >= 1
  {
    if n == 0 then 1 else 10 * Pow10(n - 1)
  }

  function DigitChar(d: nat): (c: char)
    requires d < 10
    ensures IsDigit(c) && c as int - '0' as int == d
  {
    ('0' as int + d) as char
  }

  function DigitValue(c: char): (d: nat)
    requires IsDigit(c)
    ensures d < 10 && DigitChar(d) == c
  {
    c as int - '0' as int
  }

  /** Decimal rendering of a non-negative integer, without leading zeros. */
  function Decimal(n: nat): (r: string)
    ensures 0 < |r| && AllDigits(r)
  {
    if n < 10 then [DigitChar(n)] else Decimal(n / 10) + [DigitChar(n % 10)]
  }

  /** Only zero is rendered with a leading `0`. */
  lemma {:induction false} DecimalLeadingDigit(n: nat)
    ensures Decimal(n)[0] == '0' <==> n == 0
  {
    if n >= 10 {
      DecimalLeadingDigit(n / 10);
      assert Decimal(n)[0] == Decimal(n / 10)[0];
    }
  }

  /** `parseInt` applied to a string made only of decimal digits. */
  function ParseDigits(ds: string): nat
    requires AllDigits(ds)
  {
    if |ds| == 0 then 0 else ParseDigits(ds[..|ds| - 1]) * 10 + DigitValue(ds[|ds| - 1])
  }

  /** A string of `k` digits denotes a number below `10^k`. */
  lemma {:induction false} ParseDigitsBound(ds: string)
    requires AllDigits(ds)
    ensures ParseDigits(ds) < Pow10(|ds|)
  {
    if |ds| > 0 {
      ParseDigitsBound(ds[..|ds| - 1]);
    }
  }

  /** Parsing inverts rendering. */
  lemma {:induction false} ParseDecimal(n: nat)
    ensures ParseDigits(Decimal(n)) == n
  {
    var ds := Decimal(n);
    if n < 10 {
      assert ds[..|ds| - 1] == [];
    } else {
      assert ds[..|ds| - 1] == Decimal(n / 10);
      ParseDecimal(n / 10);
    }
  }

  /** Rendering inverts parsing on digit strings without a leading zero. */
  lemma {:induction false} DecimalParse(ds: string)
    requires 0 < |ds| && AllDigits(ds)
    requires |ds| > 1 ==> ds[0] != '0'
    ensures Decimal(ParseDigits(ds)) == ds
  {
    var init := ds[..|ds| - 1];
    var d := DigitValue(ds[|ds| - 1]);
    if |ds| == 1 {
      assert init == [];
    } else {
      assert init[0] == ds[0];
      DecimalParse(init);
      LeadingDigitBound(init);
      assert ParseDigits(ds) / 10 == ParseDigits(init);
      assert ParseDigits(ds) % 10 == d;
      assert ds == init + [ds[|ds| - 1]];
    }
  }

  /** A digit string of length at least two that does not start with `0` denotes at least ten. */
  lemma {:induction false} LeadingDigitBound(ds: string)
    requires 0 < |ds| && AllDigits(ds) && ds[0] != '0'
    ensures ParseDigits(ds) >= 1
  {
    if |ds| > 1 {
      var init := ds[..|ds| - 1];
      assert init[0] == ds[0];
      LeadingDigitBound(init);
    }
  }

  /** The longest all-digit prefix of `s`. */
  function TakeDigits(s: string): (r: string)
    ensures AllDigits(r)
  {
    if |s| > 0 && IsDigit(s[0]) then [s[0]] + TakeDigits(s[1..]) else []
  }

  /** The regex match `s.match(/\d+/)[0]`: the first maximal run of digits, or empty when there is none. */
  function FirstDigitRun(s: string): (r: string)
    ensures AllDigits(r)
  {
    if |s| == 0 then []
    else if IsDigit(s[0]) then TakeDigits(s)
    else FirstDigitRun(s[1..])
  }

  /** The run of leading digits is a maximal prefix. */
  lemma {:induction false} TakeDigitsPrefix(s: string)
    ensures TakeDigits(s) <= s
    ensures |TakeDigits(s)| < |s| ==> !IsDigit(s[|TakeDigits(s)|])
  {
    if |s| > 0 && IsDigit(s[0]) {
      TakeDigitsPrefix(s[1..]);
    }
  }

  /** The first digit run is no longer than the text, and is non-empty exactly
      when the text has a digit: the match exists whenever the regex test passes. */
  lemma {:induction false} FirstDigitRunFound(s: string)
    ensures |FirstDigitRun(s)| <= |s|
    ensures HasDigit(s) <==> 0 < |FirstDigitRun(s)|
  {
    if |s| > 0 {
      if IsDigit(s[0]) {
        TakeDigitsPrefix(s);
      } else {
        FirstDigitRunFound(s[1..]);
      }
    }
  }

  /** The regex match `s.match(/[a-z]/g).join("")`: the lower-case ASCII letters of `s`, in order. */
  function LowerLetters(s: string): string {
    if |s| == 0 then []
    else if IsLowerLetter(s[0]) then [s[0]] + LowerLetters(s[1..])
    else LowerLetters(s[1..])
  }

  /** The kept characters are lower-case letters, and every lower-case letter is kept. */
  lemma {:induction false} LowerLettersShape(s: string)
    ensures AllLowerLetters(LowerLetters(s))
    ensures |LowerLetters(s)| <= |s|
    ensures multiset(LowerLetters(s)) <= multiset(s)
    ensures forall i :: 0 <= i < |s| && IsLowerLetter(s[i]) ==> s[i] in LowerLetters(s)
    ensures forall c :: IsLowerLetter(c) ==> multiset(LowerLetters(s))[c] == multiset(s)[c]
  {
    if |s| > 0 {
      LowerLettersShape(s[1..]);
      assert s == [s[0]] + s[1..];
      assert multiset(s) == multiset([s[0]]) + multiset(s[1..]);
      forall i | 0 <= i < |s| && IsLowerLetter(s[i])
        ensures s[i] in LowerLetters(s)
      {
        if i > 0 {
          assert s[1..][i - 1] == s[i];
        }
      }
    }
  }

  /** A single character is kept exactly when it is a lower-case letter; with
      `LettersAppend` this fixes the filter on every text, in order and with repeats. */
  lemma LettersOfChar(c: char)
    ensures LowerLetters([c]) == if IsLowerLetter(c) then [c] else []
  {
    assert [c][1..] == [];
  }

  /** `Array.prototype.join(sep)`. */
  function Join(parts: seq<string>, sep: string): (r: string)
    ensures |parts| == 0 ==> r == ""
    ensures 0 < |parts| ==> parts[0] <= r
    ensures |parts| == 1 ==> r == parts[0]
  {
    if |parts| == 0 then ""
    else if |parts| == 1 then parts[0]
    else parts[0] + sep + Join(parts[1..], sep)
  }

  /** Total length of a sequence of strings. */
  function TotalLength(parts: seq<string>): nat {
    if |parts| == 0 then 0 else |parts[0]| + TotalLength(parts[1..])
  }

  /** The joined text holds every part and one separator between neighbours, nothing more. */
  lemma {:induction false} JoinLength(parts: seq<string>, sep: string)
    requires 0 < |parts|
    ensures |Join(parts, sep)| == TotalLength(parts) + (|parts| - 1) * |sep|
  {
    if |parts| > 1 {
      JoinLength(parts[1..], sep);
    } else {
      assert parts[1..] == [];
    }
  }

  /** Joining two parts puts exactly one separator between them. */
  lemma JoinPair(a: string, b: string, sep: string)
    ensures Join([a, b], sep) == a + sep + b
  {
    assert [a, b][1..] == [b];
  }

  lemma {:induction false} TakeAllDigits(ds: string, rest: string)
    requires AllDigits(ds)
    requires |rest| == 0 || !IsDigit(rest[0])
    ensures TakeDigits(ds + rest) == ds
  {
    if |ds| > 0 {
      assert (ds + rest)[1..] == ds[1..] + rest;
      TakeAllDigits(ds[1..], rest);
    } else {
      assert ds + rest == rest;
    }
  }

  /** A digit-free prefix is skipped when looking for the first digit run. */
  lemma {:induction false} FirstRunAfterPrefix(p: string, ds: string)
    requires NoDigits(p) && AllDigits(ds) && 0 < |ds|
    ensures FirstDigitRun(p + ds) == ds
  {
    if |p| == 0 {
      assert p + ds == ds;
      TakeAllDigits(ds, []);
      assert ds + [] == ds;
    } else {
      assert (p + ds)[1..] == p[1..] + ds;
      FirstRunAfterPrefix(p[1..], ds);
    }
  }

  /** Digits contribute no letters. */
  lemma {:induction false} LettersAppend(a: string, b: string)
    ensures LowerLetters(a + b) == LowerLetters(a) + LowerLetters(b)
  {
    if |a| == 0 {
      assert a + b == b;
    } else {
      assert (a + b)[1..] == a[1..] + b;
      LettersAppend(a[1..], b);
    }
  }

  lemma {:induction false} LettersOfDigits(ds: string)
    requires AllDigits(ds)
    ensures LowerLetters(ds) == []
  {
    if |ds| > 0 {
      LettersOfDigits(ds[1..]);
    }
  }

  lemma {:induction false} LettersOfLetters(s: string)
    requires AllLowerLetters(s)
    ensures LowerLetters(s) == s
  {
    if |s| > 0 {
      LettersOfLetters(s[1..]);
    }
  }

  /** The first digit run is found after any digit-free head and stops where the digits stop. */
  lemma {:induction false} FirstRunOfSplit(head: string, run: string, rest: string)
    requires NoDigits(head) && AllDigits(run) && 0 < |run|
    requires |rest| == 0 || !IsDigit(rest[0])
    ensures FirstDigitRun(head + run + rest) == run
  {
    if |head| == 0 {
      assert head + run + rest == run + rest;
      TakeAllDigits(run, rest);
    } else {
      assert (head + run + rest)[1..] == head[1..] + run + rest;
      FirstRunOfSplit(head[1..], run, rest);
    }
  }
}
