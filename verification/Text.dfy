/** Decimal numbers and separators in text (printf "%d", atoi, strchr, strrchr). */
module Text {
  import opened Sequences

  predicate IsDigit(c: char) {
    '0' <= c <= '9'
  }

  function Digit(d: nat): (c: char)
    requires d < 10
    ensures IsDigit(c) && c as int == '0' as int + d
  {
    (('0' as int) + d) as char
  }

  /** "%d", for the numbers that are printed here. */
  function Decimal(n: nat): (s: string)
    ensures s != "" && forall c :: c in s ==> IsDigit(c)
  {
    if n < 10 then [Digit(n)] else Decimal(n / 10) + [Digit(n % 10)]
  }

  function LeadingDigits(s: string): nat {
    if s == "" || !IsDigit(s[0]) then 0 else 1 + LeadingDigits(s[1..])
  }

  function Value(digits: string): nat
    requires forall c :: c in digits ==> IsDigit(c)
  {
    if digits == "" then 0
    else
      assert IsDigit(digits[|digits| - 1]);
      Value(digits[..|digits| - 1]) * 10 + (digits[|digits| - 1] as int - '0' as int)
  }

  lemma {:induction false} LeadingDigitsAreDigits(s: string)
    ensures LeadingDigits(s) <= |s| && forall c :: c in s[..LeadingDigits(s)] ==> IsDigit(c)
    ensures (forall c :: c in s ==> IsDigit(c)) ==> LeadingDigits(s) == |s|
  {
    if s != "" && IsDigit(s[0]) {
      LeadingDigitsAreDigits(s[1..]);
      assert s == [s[0]] + s[1..];
    }
  }

  /** strtoull, on text that starts with the number. */
  function Unsigned(s: string): nat {
    LeadingDigitsAreDigits(s);
    Value(s[..LeadingDigits(s)])
  }

  /** atoi, on text without leading blanks: an optional sign and as many digits as there are. */
  function Atoi(s: string): int {
    if s == "" then 0
    else if s[0] == '-' then -(Unsigned(s[1..]) as int)
    else if s[0] == '+' then Unsigned(s[1..])
    else Unsigned(s)
  }

  lemma {:induction false} ValueOfDecimal(n: nat)
    ensures Value(Decimal(n)) == n
  {
    if n >= 10 {
      ValueOfDecimal(n / 10);
      var s := Decimal(n);
      assert s[..|s| - 1] == Decimal(n / 10);
    } else {
      assert Decimal(n)[..0] == "";
    }
  }

  /** Reading back a printed number. */
  lemma AtoiOfDecimal(n: nat)
    ensures Atoi(Decimal(n)) == Unsigned(Decimal(n)) == n
  {
    var s := Decimal(n);
    LeadingDigitsAreDigits(s);
    ValueOfDecimal(n);
    assert s[0] in s;
    assert s[..|s|] == s;
  }

  lemma {:induction false} FirstIndex(s: string, c: char, k: nat)
    requires k < |s| && s[k] == c && c !in s[..k]
    ensures IndexOf(s, c) == k
  {
    if k > 0 {
      assert s[0] in s[..k] && s[1..][..k - 1] == s[..k][1..];
      FirstIndex(s[1..], c, k - 1);
    }
  }

  /** strchr: what comes before the first separator and what comes after. */
  lemma CutAtFirst(before: string, c: char, after: string)
    requires c !in before
    ensures var s := before + [c] + after;
            IndexOf(s, c) == |before| && s[..|before|] == before && s[|before| + 1..] == after
  {
    var s := before + [c] + after;
    assert s[..|before|] == before;
    FirstIndex(s, c, |before|);
  }

  /** strrchr, or the length if there is none. */
  function LastIndexOf(s: string, c: char): (i: nat)
    ensures i <= |s| && (i < |s| <==> c in s) && (i < |s| ==> s[i] == c && c !in s[i + 1..])
  {
    if s == "" then 0
    else if s[|s| - 1] == c then |s| - 1
    else
      var r := s[..|s| - 1];
      var i := LastIndexOf(r, c);
      assert s == r + [s[|s| - 1]];
      if i < |r| then (assert s[i + 1..] == r[i + 1..] + [s[|s| - 1]]; i) else |s|
  }

  lemma {:induction false} LastIndex(s: string, c: char, k: nat)
    requires k < |s| && s[k] == c && c !in s[k + 1..]
    ensures LastIndexOf(s, c) == k
  {
    var n := |s| - 1;
    if k < n {
      assert s[n] in s[k + 1..];
      assert s[..n][k + 1..] == s[k + 1..][..n - k - 1];
      LastIndex(s[..n], c, k);
    }
  }

  lemma CutAtLast(before: string, c: char, after: string)
    requires c !in after
    ensures var s := before + [c] + after;
            LastIndexOf(s, c) == |before| && s[..|before|] == before && s[|before| + 1..] == after
  {
    var s := before + [c] + after;
    assert s[|before| + 1..] == after;
    LastIndex(s, c, |before|);
  }

  /** Words separated by commas. */
  function Join(words: seq<string>): string {
    if words == [] then "" else if |words| == 1 then words[0] else words[0] + "," + Join(words[1..])
  }

  function Split(s: string): (words: seq<string>)
    ensures words != []
    decreases |s|
  {
    var i := IndexOf(s, ',');
    if i == |s| then [s] else [s[..i]] + Split(s[i + 1..])
  }

  lemma {:induction false} SplitOfJoin(words: seq<string>)
    requires words != [] && forall w :: w in words ==> ',' !in w
    ensures Split(Join(words)) == words
  {
    if |words| > 1 {
      SplitOfJoin(words[1..]);
      CutAtFirst(words[0], ',', Join(words[1..]));
      assert words == [words[0]] + words[1..];
    } else {
      assert words == [words[0]];
    }
  }

  // ------------------------------------------------------------------ upper and lower case

  function Lower(c: char): char {
    if 'A' <= c <= 'Z' then ((c as int) + 32) as char else c
  }

  function Fold(s: string): (r: string)
    ensures |r| == |s|
  {
    seq(|s|, i requires 0 <= i < |s| => Lower(s[i]))
  }

  /** strcasecmp finds no difference. */
  predicate SameWord(a: string, b: string) {
    Fold(a) == Fold(b)
  }

  function Folds(words: seq<string>): (r: seq<string>)
    ensures |r| == |words|
  {
    seq(|words|, i requires 0 <= i < |words| => Fold(words[i]))
  }

  lemma LowerCaseStays(s: string)
    requires forall c :: c in s ==> !('A' <= c <= 'Z')
    ensures Fold(s) == s
  {
    forall i | 0 <= i < |s| ensures Fold(s)[i] == s[i] {
      assert s[i] in s;
    }
  }

  lemma FoldsToLowerCase()
    ensures Fold("ABCDEFGHIJKLMNOPQRSTUVWXYZ[@_09?") == "abcdefghijklmnopqrstuvwxyz[@_09?"
  {
  }

  lemma CaseIsIgnored()
    ensures SameWord("MYSELF", "myself") && SameWord("CurrentEpoch", "currentEpoch") && !SameWord("fail?", "fail")
  {
  }
}
