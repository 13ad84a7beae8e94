/** Character-level helpers that the C++ code gets from the standard library:
  * decimal rendering of integers (what `vtkVariant::ToString` prints), the
  * stream extraction `istream >> int` that `vtkVariant::ToInt` and
  * `ToNumeric` perform on a string, splitting on white space
  * (`stream >> word`), ASCII case folding, and the byte-wise ordering of
  * `std::string`, which is the iteration order of every `std::map` keyed by
  * strings. */
module Text {

  // ---------------------------------------------------------------------
  // Decimal rendering and stream extraction of integers

  predicate IsDigit(c: char) { '0' <= c <= '9' }

  function DigitChar(d: nat): (c: char)
    requires d < 10
    ensures IsDigit(c)
  {
    ['0', '1', '2', '3', '4', '5', '6', '7', '8', '9'][d]
  }

  function DigitValue(c: char): (d: nat)
    requires IsDigit(c)
    ensures d < 10 && DigitChar(d) == c
  {
    if c == '0' then 0 else if c == '1' then 1 else if c == '2' then 2
    else if c == '3' then 3 else if c == '4' then 4 else if c == '5' then 5
    else if c == '6' then 6 else if c == '7' then 7 else if c == '8' then 8
    else 9
  }

  predicate AllDigits(s: string) { forall i :: 0 <= i < |s| ==> IsDigit(s[i]) }

  /** Decimal digits of `n`, most significant first, without leading zeros. */
  function NatToString(n: nat): (s: string)
    ensures |s| > 0 && AllDigits(s)
  {
    if n < 10 then [DigitChar(n)] else NatToString(n / 10) + [DigitChar(n % 10)]
  }

  /** The text `vtkVariant(i).ToString()` produces for an integer. */
  function IntToString(i: int): (s: string)
    ensures |s| > 0
    ensures !HasSpace(s)
  {
    if i < 0 then "-" + NatToString(-i) else NatToString(i)
  }

  /** Value of a run of decimal digits, read left to right. */
  function DigitsValue(s: string): nat
    requires AllDigits(s)
  {
    if |s| == 0 then 0 else DigitsValue(s[..|s| - 1]) * 10 + DigitValue(s[|s| - 1])
  }

  /** Number of leading decimal digits of `s`. */
  function LeadingDigits(s: string): (n: nat)
    ensures n <= |s| && AllDigits(s[..n])
    ensures n < |s| ==> !IsDigit(s[n])
  {
    if |s| == 0 || !IsDigit(s[0]) then 0 else 1 + LeadingDigits(s[1..])
  }

  /** `s` without its leading white space. */
  function DropSpaces(s: string): (t: string)
    ensures |t| <= |s| && (|t| > 0 ==> !IsSpace(t[0]))
  {
    if |s| > 0 && IsSpace(s[0]) then DropSpaces(s[1..]) else s
  }

  /** The integer `istream >> int` extracts from `s`: leading white space is
    * skipped, an optional sign is read, then the longest run of digits; when
    * no digit follows, extraction fails and the value is 0. */
  function StreamInt(s: string): int
  {
    var t := DropSpaces(s);
    if |t| > 0 && (t[0] == '-' || t[0] == '+') then
      var n := LeadingDigits(t[1..]);
      var v: int := DigitsValue(t[1..][..n]);
      if t[0] == '-' then -v else v
    else
      DigitsValue(t[..LeadingDigits(t)])
  }

  lemma {:induction false} DigitsOfNat(n: nat)
    ensures DigitsValue(NatToString(n)) == n
    decreases n
  {
    var s := NatToString(n);
    if n >= 10 {
      DigitsOfNat(n / 10);
      assert s[..|s| - 1] == NatToString(n / 10);
    }
  }

  lemma {:induction false} LeadingDigitsOfDigits(s: string)
    requires AllDigits(s)
    ensures LeadingDigits(s) == |s|
    decreases |s|
  {
    if |s| > 0 {
      LeadingDigitsOfDigits(s[1..]);
    }
  }

  /** Reading back the decimal text of an integer gives the integer: the
    * round trip between `vtkVariant::ToString` and `vtkVariant::ToInt`. */
  lemma StreamIntOfIntToString(i: int)
    ensures StreamInt(IntToString(i)) == i
  {
    var d := NatToString(if i < 0 then -i else i);
    DigitsOfNat(if i < 0 then -i else i);
    if i < 0 {
      StreamIntOfNegative(d);
      assert StreamInt(IntToString(i)) == StreamInt("-" + d);
    } else {
      StreamIntOfDigits(d);
      assert StreamInt(IntToString(i)) == StreamInt(d);
    }
  }

  lemma StreamIntOfDigits(d: string)
    requires |d| > 0 && AllDigits(d)
    ensures StreamInt(d) == DigitsValue(d)
  {
    assert IsDigit(d[0]);
    NoSpacesToDrop(d);
    LeadingDigitsOfDigits(d);
    assert d[..|d|] == d;
  }

  lemma StreamIntOfNegative(d: string)
    requires |d| > 0 && AllDigits(d)
    ensures StreamInt("-" + d) == -(DigitsValue(d) as int)
  {
    var s := "-" + d;
    assert s[0] == '-' && s[1..] == d by {
    }
    NoSpacesToDrop(s);
    LeadingDigitsOfDigits(d);
    assert d[..|d|] == d;
  }

  lemma NoSpacesToDrop(s: string)
    requires |s| > 0 && !IsSpace(s[0])
    ensures DropSpaces(s) == s
  {
  }

  // ---------------------------------------------------------------------
  // White space and words

  /** `isspace` in the C locale. */
  predicate IsSpace(c: char)
  {
    c == ' ' || c == '\t' || c == '\n' || c == '\r' || c == '\U{0B}' || c == '\U{0C}'
  }

  predicate HasSpace(s: string) { exists i :: 0 <= i < |s| && IsSpace(s[i]) }

  /** Length of the word at the start of `s` (up to the first white space). */
  function WordLength(s: string): (n: nat)
    ensures n <= |s|
    ensures |s| > 0 && !IsSpace(s[0]) ==> n > 0
  {
    if |s| == 0 || IsSpace(s[0]) then 0 else 1 + WordLength(s[1..])
  }

  /** The words `stream >> word` extracts from `s`, in order. */
  function Words(s: string): seq<string>
    decreases |s|
  {
    if |s| == 0 then []
    else if IsSpace(s[0]) then Words(s[1..])
    else [s[..WordLength(s)]] + Words(s[WordLength(s)..])
  }

  /** A tuple's text as `vtkXMLFileWriter::WriteTuple` builds it: each piece is
    * appended, preceded by one blank unless the text is still empty. */
  function SpaceJoin(words: seq<string>): string
  {
    if |words| == 0 then ""
    else
      var init := SpaceJoin(words[..|words| - 1]);
      (if |init| > 0 then init + " " else init) + words[|words| - 1]
  }

  lemma {:induction false} WordLengthBeforeBlank(x: string, y: string)
    requires |x| > 0 && !IsSpace(x[0])
    ensures WordLength(x + [' '] + y) == WordLength(x)
    decreases |x|
  {
    var s := x + [' '] + y;
    if |x| > 1 && !IsSpace(x[1]) {
      assert s[1..] == x[1..] + [' '] + y;
      WordLengthBeforeBlank(x[1..], y);
    } else if |x| > 1 {
      assert s[1..][0] == x[1];
    } else {
      assert s[1..][0] == ' ';
    }
  }

  /** One blank splits the text: the words on either side are kept apart. */
  lemma {:induction false} WordsAroundBlank(x: string, y: string)
    ensures Words(x + [' '] + y) == Words(x) + Words(y)
    decreases |x|
  {
    if |x| == 0 {
      assert (x + [' '] + y)[1..] == y;
    } else if IsSpace(x[0]) {
      assert (x + [' '] + y)[1..] == x[1..] + [' '] + y;
      WordsAroundBlank(x[1..], y);
    } else {
      WordsAroundBlank(x[WordLength(x)..], y);
      WordsAroundBlankAfterWord(x, y);
    }
  }

  /** The step of `WordsAroundBlank` when `x` starts with a word. */
  lemma WordsAroundBlankAfterWord(x: string, y: string)
    requires |x| > 0 && !IsSpace(x[0])
    requires Words(x[WordLength(x)..] + [' '] + y) == Words(x[WordLength(x)..]) + Words(y)
    ensures Words(x + [' '] + y) == Words(x) + Words(y)
  {
    var n := WordLength(x);
    WordLengthBeforeBlank(x, y);
    BlankSplit(x, y, n);
    WordsAfterFirstWord(x + [' '] + y);
    WordsAfterFirstWord(x);
    ConsAssociative(x[..n], Words(x[n..]), Words(y));
  }

  lemma WordsAfterFirstWord(s: string)
    requires |s| > 0 && !IsSpace(s[0])
    ensures Words(s) == [s[..WordLength(s)]] + Words(s[WordLength(s)..])
  {
  }

  lemma BlankSplit(x: string, y: string, n: int)
    requires 0 < n <= |x|
    ensures (x + [' '] + y)[0] == x[0]
    ensures (x + [' '] + y)[..n] == x[..n]
    ensures (x + [' '] + y)[n..] == x[n..] + [' '] + y
  {
    assert (x + [' '] + y)[..n] == x[..n];
    assert (x + [' '] + y)[n..] == x[n..] + [' '] + y;
  }

  lemma ConsAssociative<T>(a: T, u: seq<T>, v: seq<T>)
    ensures [a] + (u + v) == ([a] + u) + v
  {
  }

  lemma {:induction false} WordsOfWord(w: string)
    requires |w| > 0 && !HasSpace(w)
    ensures Words(w) == [w]
  {
    assert !IsSpace(w[0]);
    WordLengthOfWord(w);
    assert w[..|w|] == w;
    assert w[|w|..] == [];
  }

  lemma {:induction false} WordLengthOfWord(w: string)
    requires !HasSpace(w)
    ensures WordLength(w) == |w|
    decreases |w|
  {
    if |w| > 0 {
      assert !IsSpace(w[0]);
      assert forall i :: 0 <= i < |w[1..]| ==> w[1..][i] == w[i + 1];
      WordLengthOfWord(w[1..]);
    }
  }

  /** Splitting joined words gives the words back, provided each word is
    * non-empty and holds no white space. */
  lemma {:induction false} WordsOfSpaceJoin(words: seq<string>)
    requires forall i :: 0 <= i < |words| ==> |words[i]| > 0 && !HasSpace(words[i])
    ensures Words(SpaceJoin(words)) == words
    decreases |words|
  {
    if |words| > 0 {
      var init := words[..|words| - 1];
      var w := words[|words| - 1];
      var j := SpaceJoin(init);
      assert words == init + [w];
      WordsOfSpaceJoin(init);
      WordsOfWord(w);
      if |j| > 0 {
        assert SpaceJoin(words) == j + [' '] + w;
        WordsAroundBlank(j, w);
      } else {
        assert SpaceJoin(words) == w;
      }
    }
  }

  // ---------------------------------------------------------------------
  // ASCII case

  function LowerChar(c: char): char
  {
    if 'A' <= c <= 'Z' then (c as int + 32) as char else c
  }

  /** The lower-case copy of `s` (ASCII letters only). */
  function Lower(s: string): (t: string)
    ensures |t| == |s|
    ensures forall i :: 0 <= i < |s| ==> t[i] == LowerChar(s[i])
  {
    if |s| == 0 then "" else [LowerChar(s[0])] + Lower(s[1..])
  }

  /** `xmlStrcasecmp(a, b) == 0`: equal up to the case of ASCII letters. */
  predicate EqualsIgnoringCase(a: string, b: string)
  {
    |a| == |b| && forall i :: 0 <= i < |a| ==> LowerChar(a[i]) == LowerChar(b[i])
  }

  /** Equal up to case means equal lower-case copies. */
  lemma EqualsIgnoringCaseLower(a: string, b: string)
    ensures EqualsIgnoringCase(a, b) <==> Lower(a) == Lower(b)
  {
    if Lower(a) == Lower(b) {
      assert forall i :: 0 <= i < |a| ==> LowerChar(a[i]) == Lower(a)[i] == Lower(b)[i] == LowerChar(b[i]);
    }
  }

  predicate StartsWith(s: string, prefix: string)
  {
    |prefix| <= |s| && s[..|prefix|] == prefix
  }

  predicate EndsWith(s: string, suffix: string)
  {
    |suffix| <= |s| && s[|s| - |suffix|..] == suffix
  }

  // ---------------------------------------------------------------------
  // The ordering of std::string, and the keys of a map in that order

  /** `a.compare(b) < 0`: lexicographic, character by character, a proper
    * prefix first. */
  predicate Less(a: string, b: string)
  {
    if |a| == 0 then |b| > 0
    else if |b| == 0 then false
    else a[0] < b[0] || (a[0] == b[0] && Less(a[1..], b[1..]))
  }

  lemma {:induction false} LessIrreflexive(a: string)
    ensures !Less(a, a)
    decreases |a|
  {
    if |a| > 0 {
      LessIrreflexive(a[1..]);
    }
  }

  lemma {:induction false} LessAsymmetric(a: string, b: string)
    requires Less(a, b)
    ensures !Less(b, a)
    decreases |a|
  {
    if |a| > 0 && |b| > 0 && a[0] == b[0] {
      LessAsymmetric(a[1..], b[1..]);
    }
  }

  lemma {:induction false} LessTransitive(a: string, b: string, c: string)
    requires Less(a, b) && Less(b, c)
    ensures Less(a, c)
    decreases |a|
  {
    if |a| > 0 && a[0] == b[0] && b[0] == c[0] {
      LessTransitive(a[1..], b[1..], c[1..]);
    }
  }

  lemma {:induction false} LessTotal(a: string, b: string)
    requires a != b
    ensures Less(a, b) || Less(b, a)
    decreases |a|
  {
    if |a| > 0 && |b| > 0 && a[0] == b[0] {
      assert a == [a[0]] + a[1..] && b == [b[0]] + b[1..];
      LessTotal(a[1..], b[1..]);
    }
  }

  predicate IsLeast(m: string, keys: set<string>)
  {
    m in keys && forall k :: k in keys ==> k == m || Less(m, k)
  }

  lemma {:induction false} LeastExists(keys: set<string>)
    requires keys != {}
    ensures exists m :: IsLeast(m, keys)
    decreases |keys|
  {
    var k :| k in keys;
    if keys == {k} {
      assert IsLeast(k, keys);
    } else {
      var rest := keys - {k};
      LeastExists(rest);
      var m :| IsLeast(m, rest);
      if Less(m, k) {
        assert IsLeast(m, keys);
      } else {
        LessTotal(m, k);
        forall x | x in keys ensures x == k || Less(k, x) {
          if x != k && x != m {
            LessTransitive(k, m, x);
          }
        }
        assert IsLeast(k, keys);
      }
    }
  }

  predicate StrictlySorted(s: seq<string>)
  {
    forall i, j :: 0 <= i < j < |s| ==> Less(s[i], s[j])
  }

  /** The keys of a `std::map<std::string, …>` in iteration order. */
  function SortedKeys(keys: set<string>): (r: seq<string>)
    ensures StrictlySorted(r)
    ensures forall k :: k in r <==> k in keys
    ensures |r| == |keys|
    decreases |keys|
  {
    if keys == {} then []
    else
      LeastExists(keys);
      LeastIsUnique(keys);
      var m :| IsLeast(m, keys);
      var rest := SortedKeys(keys - {m});
      LeastBeforeRest(m, keys, rest);
      ConsSorted(m, rest);
      [m] + rest
  }

  lemma LeastIsUnique(keys: set<string>)
    ensures forall a, b :: IsLeast(a, keys) && IsLeast(b, keys) ==> a == b
  {
    forall a, b | IsLeast(a, keys) && IsLeast(b, keys)
      ensures a == b
    {
      if a != b {
        assert Less(a, b) && Less(b, a);
        LessAsymmetric(a, b);
      }
    }
  }

  lemma LeastBeforeRest(m: string, keys: set<string>, rest: seq<string>)
    requires IsLeast(m, keys) && forall k :: k in rest <==> k in keys - {m}
    ensures forall i :: 0 <= i < |rest| ==> Less(m, rest[i])
  {
    forall i | 0 <= i < |rest|
      ensures Less(m, rest[i])
    {
      assert rest[i] in rest;
    }
  }

  lemma ConsSorted(m: string, rest: seq<string>)
    requires StrictlySorted(rest) && forall i :: 0 <= i < |rest| ==> Less(m, rest[i])
    ensures StrictlySorted([m] + rest)
  {
    var s := [m] + rest;
    forall i, j | 0 <= i < j < |s|
      ensures Less(s[i], s[j])
    {
      if i > 0 {
        assert s[i] == rest[i - 1] && s[j] == rest[j - 1];
      }
    }
  }
}
