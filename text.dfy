/**
 * The string functions of PHP that the handlers rely on, over `string = seq<char>`:
 * trim, explode, intval, integer-to-string conversion, strtoupper and str_replace of one
 * character. Each comes with the lemmas the rest of the model needs.
 */
module Text {

  /** The characters PHP's trim() strips when no character list is given: " \t\n\r\0\x0B". */
  const TrimSet: set<char> := {' ', '\t', '\n', '\r', '\0', '\U{000B}'}

  /** The leading white space PHP skips when it converts a string to an integer. */
  const NumericSpace: set<char> := {' ', '\t', '\n', '\r', '\U{000B}', '\U{000C}'}

  /** Bounds of PHP's 64-bit integers. */
  const MinInt64: int := -0x8000_0000_0000_0000
  const MaxInt64: int := 0x7FFF_FFFF_FFFF_FFFF

  predicate StartsWith(s: string, prefix: string) {
    |prefix| <= |s| && s[..|prefix|] == prefix
  }

  predicate EndsWith(s: string, suffix: string) {
    |suffix| <= |s| && s[|s| - |suffix|..] == suffix
  }

  /** PHP's empty() on a string: true for "" and for "0". */
  predicate IsEmptyString(s: string) {
    s == "" || s == "0"
  }

  // ---------------------------------------------------------------------------------------------
  // trim / ltrim / rtrim with a character list
  // ---------------------------------------------------------------------------------------------

  /** ltrim($s, $chars): drops the longest prefix made of characters of `cs`. */
  function TrimLeft(s: string, cs: set<char>): (r: string)
    ensures |r| <= |s| && r == s[|s| - |r|..]
    ensures r == [] || r[0] !in cs
    ensures forall k :: 0 <= k < |s| - |r| ==> s[k] in cs
    decreases |s|
  {
    if |s| > 0 && s[0] in cs then TrimLeft(s[1..], cs) else s
  }

  /** rtrim($s, $chars): drops the longest suffix made of characters of `cs`. */
  function TrimRight(s: string, cs: set<char>): (r: string)
    ensures |r| <= |s| && r == s[..|r|]
    ensures r == [] || r[|r| - 1] !in cs
    ensures forall k :: |r| <= k < |s| ==> s[k] in cs
    decreases |s|
  {
    if |s| > 0 && s[|s| - 1] in cs then TrimRight(s[..|s| - 1], cs) else s
  }

  /** trim($s, $chars). */
  function TrimChars(s: string, cs: set<char>): string {
    TrimRight(TrimLeft(s, cs), cs)
  }

  /** trim($s) with PHP's default character list. */
  function Trim(s: string): string {
    TrimChars(s, TrimSet)
  }

  /** Cutting a prefix of trimmed characters and then a suffix of them leaves a middle piece. */
  lemma TrimmedPiece(s: string, l: string, r: string, cs: set<char>)
    requires |l| <= |s| && l == s[|s| - |l|..]
    requires forall k :: 0 <= k < |s| - |l| ==> s[k] in cs
    requires |r| <= |l| && r == l[..|r|]
    requires forall k :: |r| <= k < |l| ==> l[k] in cs
    ensures var i := |s| - |l|;
      r == s[i..i + |r|] && forall k :: i + |r| <= k < |s| ==> s[k] in cs
  {
    var i := |s| - |l|;
    forall k | i + |r| <= k < |s| ensures s[k] in cs {
      assert s[k] == l[k - i];
    }
  }

  /** Where the result of trim($s, $chars) starts in `s`. */
  function TrimStart(s: string, cs: set<char>): nat {
    |s| - |TrimLeft(s, cs)|
  }

  /** The result of trim is a piece of the input that neither starts nor ends with a trimmed
      character, and everything cut off on either side is a trimmed character. */
  lemma TrimCharsSpec(s: string, cs: set<char>)
    ensures TrimStart(s, cs) + |TrimChars(s, cs)| <= |s|
    ensures TrimChars(s, cs) == s[TrimStart(s, cs)..TrimStart(s, cs) + |TrimChars(s, cs)|]
    ensures forall k :: 0 <= k < TrimStart(s, cs) ==> s[k] in cs
    ensures forall k :: TrimStart(s, cs) + |TrimChars(s, cs)| <= k < |s| ==> s[k] in cs
    ensures TrimChars(s, cs) == [] || (TrimChars(s, cs)[0] !in cs && TrimChars(s, cs)[|TrimChars(s, cs)| - 1] !in cs)
  {
    TrimmedPiece(s, TrimLeft(s, cs), TrimRight(TrimLeft(s, cs), cs), cs);
  }

  /** trim leaves a string alone when its first and last characters are kept ones. */
  lemma TrimCharsKeeps(s: string, cs: set<char>)
    requires s == [] || (s[0] !in cs && s[|s| - 1] !in cs)
    ensures TrimChars(s, cs) == s
  {
  }

  // ---------------------------------------------------------------------------------------------
  // explode / implode on one separator character
  // ---------------------------------------------------------------------------------------------

  /** explode($sep, $s): the pieces between separators; never empty, "" gives [""]. */
  function Explode(s: string, sep: char): (r: seq<string>)
    ensures |r| >= 1
    ensures forall k :: 0 <= k < |r| ==> sep !in r[k]
    decreases |s|
  {
    if |s| == 0 then [""]
    else if s[0] == sep then [""] + Explode(s[1..], sep)
    else
      var rest := Explode(s[1..], sep);
      [[s[0]] + rest[0]] + rest[1..]
  }

  /** implode($sep, $parts). */
  function Join(parts: seq<string>, sep: char): string
    requires |parts| >= 1
  {
    if |parts| == 1 then parts[0] else parts[0] + [sep] + Join(parts[1..], sep)
  }

  /** Joining the pieces of explode gives back the exploded string. */
  lemma {:induction false} JoinExplode(s: string, sep: char)
    ensures Join(Explode(s, sep), sep) == s
    decreases |s|
  {
    if |s| == 0 {
    } else if s[0] == sep {
      JoinExplode(s[1..], sep);
      assert s == [sep] + s[1..];
    } else {
      var rest := Explode(s[1..], sep);
      JoinExplode(s[1..], sep);
      if |rest| == 1 {
        assert s == [s[0]] + s[1..];
      } else {
        assert Join(rest, sep) == rest[0] + [sep] + Join(rest[1..], sep);
        assert s == [s[0]] + s[1..];
      }
    }
  }

  /** Exploding a join of separator-free pieces gives back the pieces. */
  lemma {:induction false} ExplodeJoin(parts: seq<string>, sep: char)
    requires |parts| >= 1
    requires forall k :: 0 <= k < |parts| ==> sep !in parts[k]
    ensures Explode(Join(parts, sep), sep) == parts
    decreases |parts|, |parts[0]|
  {
    var p := parts[0];
    if |p| == 0 {
      if |parts| == 1 {
      } else {
        ExplodeJoin(parts[1..], sep);
        assert Join(parts, sep) == [sep] + Join(parts[1..], sep);
        assert [""] + parts[1..] == parts;
      }
    } else {
      var parts' := [p[1..]] + parts[1..];
      assert sep !in p[1..] by { assert forall k :: 0 <= k < |p[1..]| ==> p[1..][k] == p[k + 1]; }
      ExplodeJoin(parts', sep);
      assert parts'[1..] == parts[1..];
      assert Join(parts, sep) == [p[0]] + Join(parts', sep) by {
        if |parts| == 1 {
          assert p == [p[0]] + p[1..];
        } else {
          assert p + [sep] + Join(parts[1..], sep) == [p[0]] + (p[1..] + [sep] + Join(parts[1..], sep));
        }
      }
      var j := Join(parts, sep);
      assert j[0] == p[0] && j[1..] == Join(parts', sep);
      assert p[0] != sep;
      assert [p[0]] + p[1..] == p;
    }
  }

  /** explode($sep, $s, 2): splits at the first separator only, so the second half may contain it. */
  function SplitFirst(s: string, sep: char): (r: Option2)
    ensures r.Pair? <==> sep in s
    ensures r.Pair? ==> s == r.left + [sep] + r.right && sep !in r.left
    decreases |s|
  {
    if |s| == 0 then NoSplit
    else if s[0] == sep then Pair([], s[1..])
    else match SplitFirst(s[1..], sep)
      case NoSplit => NoSplit
      case Pair(l, r) => Pair([s[0]] + l, r)
  }

  /** Splitting `left + sep + right` at the first separator gives back the two halves when
      `left` holds no separator, whatever `right` holds. */
  lemma {:induction false} SplitFirstAt(left: string, right: string, sep: char)
    requires sep !in left
    ensures SplitFirst(left + [sep] + right, sep) == Pair(left, right)
    decreases |left|
  {
    var s := left + [sep] + right;
    if left != [] {
      assert s[1..] == left[1..] + [sep] + right;
      SplitFirstAt(left[1..], right, sep);
      assert [left[0]] + left[1..] == left;
    }
  }

  /** The two halves of a split (or none when the separator does not occur). */
  datatype Option2 = NoSplit | Pair(left: string, right: string)

  // ---------------------------------------------------------------------------------------------
  // Integers and strings
  // ---------------------------------------------------------------------------------------------

  predicate IsDigit(c: char) {
    '0' <= c <= '9'
  }

  function DigitChar(d: nat): (c: char)
    requires d < 10
    ensures IsDigit(c)
  {
    "0123456789"[d]
  }

  function DigitValue(c: char): (d: nat)
    requires IsDigit(c)
    ensures d < 10
  {
    (c as int - '0' as int) as nat
  }

  /** The decimal digits of a natural number, without leading zeros. */
  function NatToString(n: nat): (r: string)
    ensures |r| >= 1
    ensures forall k :: 0 <= k < |r| ==> IsDigit(r[k])
    decreases n
  {
    if n < 10 then [DigitChar(n)] else NatToString(n / 10) + [DigitChar(n % 10)]
  }

  /** PHP's conversion of an int to a string (string interpolation, concatenation). */
  function IntToString(i: int): (r: string)
    ensures |r| >= 1 && (IsDigit(r[0]) || r[0] == '-')
  {
    if i < 0 then "-" + NatToString(-i) else NatToString(i)
  }

  /** The value of a string of decimal digits. */
  function DigitsValue(ds: string): nat
    requires forall k :: 0 <= k < |ds| ==> IsDigit(ds[k])
  {
    if |ds| == 0 then 0 else DigitsValue(ds[..|ds| - 1]) * 10 + DigitValue(ds[|ds| - 1])
  }

  /** The longest prefix of `s` made of digits. */
  function LeadingDigits(s: string): (r: string)
    ensures forall k :: 0 <= k < |r| ==> IsDigit(r[k])
    ensures StartsWith(s, r)
    ensures |r| == |s| || !IsDigit(s[|r|])
  {
    if |s| == 0 || !IsDigit(s[0]) then [] else [s[0]] + LeadingDigits(s[1..])
  }

  function Clamp64(i: int): (r: int)
    ensures MinInt64 <= r <= MaxInt64
    ensures MinInt64 <= i <= MaxInt64 ==> r == i
  {
    if i < MinInt64 then MinInt64 else if i > MaxInt64 then MaxInt64 else i
  }

  /**
   * intval($s) / (int)$s on a string: skips leading white space, reads an optional sign and the
   * digits that follow, ignores the rest ("12abc" is 12, "abc" is 0) and saturates at the
   * bounds of a 64-bit integer.
   */
  function IntVal(s: string): int {
    var t := TrimLeft(s, NumericSpace);
    if |t| > 0 && t[0] == '-' then Clamp64(-(DigitsValue(LeadingDigits(t[1..])) as int))
    else if |t| > 0 && t[0] == '+' then Clamp64(DigitsValue(LeadingDigits(t[1..])))
    else Clamp64(DigitsValue(LeadingDigits(t)))
  }

  lemma {:induction false} DigitsValueOfNat(n: nat)
    ensures DigitsValue(NatToString(n)) == n
    decreases n
  {
    var r := NatToString(n);
    if n >= 10 {
      DigitsValueOfNat(n / 10);
      assert r[..|r| - 1] == NatToString(n / 10);
    }
  }

  lemma {:induction false} LeadingDigitsAll(s: string)
    requires forall k :: 0 <= k < |s| ==> IsDigit(s[k])
    ensures LeadingDigits(s) == s
    decreases |s|
  {
    if |s| > 0 {
      LeadingDigitsAll(s[1..]);
    }
  }

  /** A printed integer is made of digits after an optional minus sign. */
  lemma IntToStringDigits(i: int)
    ensures forall k :: 0 <= k < |IntToString(i)| ==> IsDigit(IntToString(i)[k]) || (k == 0 && IntToString(i)[k] == '-')
  {
    if i < 0 {
      var ds := NatToString(-i);
      assert IntToString(i) == "-" + ds;
      assert forall k :: 1 <= k < |IntToString(i)| ==> IntToString(i)[k] == ds[k - 1];
    }
  }

  /** Different natural numbers have different digits. */
  lemma NatToStringInjective(m: nat, n: nat)
    requires m != n
    ensures NatToString(m) != NatToString(n)
  {
    DigitsValueOfNat(m);
    DigitsValueOfNat(n);
  }

  /** A printed negative number is a minus sign before the digits of its magnitude. */
  lemma NegativeString(i: int)
    requires i < 0
    ensures IntToString(i) == "-" + NatToString(-i)
    ensures IntToString(i)[0] == '-' && IntToString(i)[1..] == NatToString(-i)
  {
  }

  /** Different integers print differently. */
  lemma IntToStringInjective(i: int, j: int)
    requires i != j
    ensures IntToString(i) != IntToString(j)
  {
    if i < 0 && j < 0 {
      NegativeString(i);
      NegativeString(j);
      NatToStringInjective(-i, -j);
    } else if i >= 0 && j >= 0 {
      NatToStringInjective(i, j);
    } else if i < 0 {
      NegativeString(i);
      assert IsDigit(NatToString(j)[0]);
    } else {
      NegativeString(j);
      assert IsDigit(NatToString(i)[0]);
    }
  }

  /** intval reads back every 64-bit integer that PHP prints. */
  lemma IntValIntToString(i: int)
    requires MinInt64 <= i <= MaxInt64
    ensures IntVal(IntToString(i)) == i
  {
    var s := IntToString(i);
    assert s[0] !in NumericSpace;
    assert TrimLeft(s, NumericSpace) == s;
    if i < 0 {
      var n: nat := -i;
      var ds := NatToString(n);
      assert s == "-" + ds;
      assert s[1..] == ds;
      assert s[0] == '-';
      LeadingDigitsAll(ds);
      DigitsValueOfNat(n);
      assert DigitsValue(LeadingDigits(s[1..])) == n;
    } else {
      assert s == NatToString(i);
      assert s[0] != '-' && s[0] != '+';
      LeadingDigitsAll(s);
      DigitsValueOfNat(i);
      assert DigitsValue(LeadingDigits(s)) == i;
    }
  }

  // ---------------------------------------------------------------------------------------------
  // strtoupper and str_replace of one character
  // ---------------------------------------------------------------------------------------------

  function UpperChar(c: char): char {
    if 'a' <= c <= 'z' then (c as int - 'a' as int + 'A' as int) as char else c
  }

  /** strtoupper, which (since PHP 8.2) changes only the ASCII letters a-z. */
  function ToUpper(s: string): (r: string)
    ensures |r| == |s|
    ensures forall k :: 0 <= k < |s| ==> r[k] == UpperChar(s[k])
    ensures forall k :: 0 <= k < |r| ==> !('a' <= r[k] <= 'z')
  {
    seq(|s|, k requires 0 <= k < |s| => UpperChar(s[k]))
  }

  /** str_replace($c, '', $s): deletes every occurrence of `c`. */
  function RemoveChar(s: string, c: char): (r: string)
    ensures c !in r
    ensures |r| <= |s|
    ensures c !in s ==> r == s
    decreases |s|
  {
    if |s| == 0 then s
    else if s[0] == c then RemoveChar(s[1..], c)
    else [s[0]] + RemoveChar(s[1..], c)
  }

  /** Deleting a character distributes over concatenation. */
  lemma {:induction false} RemoveCharAppend(a: string, b: string, c: char)
    ensures RemoveChar(a + b, c) == RemoveChar(a, c) + RemoveChar(b, c)
    decreases |a|
  {
    if |a| > 0 {
      RemoveCharAppend(a[1..], b, c);
      assert (a + b)[1..] == a[1..] + b;
    } else {
      assert a + b == b;
    }
  }
}
