/** The string operations the ledger and its pages rely on: `trim`,
    `toLowerCase`, `includes`, `replace(/\s/g, '_')` and the decimal text
    of a number, over strings as sequences of characters. */
module JsStrings {

  /** The characters JavaScript counts as white space (the WhiteSpace and
      LineTerminator sets that both `trim` and the `\s` class use). */
  predicate IsSpace(c: char) {
    || c == '\t' || c == '\n' || c == '\U{000B}' || c == '\U{000C}' || c == '\r'
    || c == ' ' || c == '\U{00A0}' || c == '\U{1680}'
    || ('\U{2000}' <= c <= '\U{200A}')
    || c == '\U{2028}' || c == '\U{2029}' || c == '\U{202F}' || c == '\U{205F}'
    || c == '\U{3000}' || c == '\U{FEFF}'
  }

  predicate AllSpace(s: string) {
    forall k :: 0 <= k < |s| ==> IsSpace(s[k])
  }

  /** Leading white space removed: a suffix of `s`, all of whose dropped
      characters are white space, that does not start with white space. */
  function TrimStart(s: string): (r: string)
    ensures |r| <= |s| && r == s[|s| - |r|..]
    ensures AllSpace(s[..|s| - |r|])
    ensures r == [] || !IsSpace(r[0])
    decreases |s|
  {
    if s != [] && IsSpace(s[0]) then
      var tail := s[1..];
      var r := TrimStart(tail);
      assert tail[|tail| - |r|..] == s[|s| - |r|..];
      var cut := s[..|s| - |r|];
      assert AllSpace(cut) by {
        forall k | 0 <= k < |cut| ensures IsSpace(cut[k]) {
          if k > 0 {
            assert cut[k] == tail[..|tail| - |r|][k - 1];
          }
        }
      }
      r
    else s
  }

  /** Trailing white space removed: a prefix of `s`, all of whose dropped
      characters are white space, that does not end with white space. */
  function TrimEnd(s: string): (r: string)
    ensures |r| <= |s| && r == s[..|r|]
    ensures AllSpace(s[|r|..])
    ensures r == [] || !IsSpace(r[|r| - 1])
    decreases |s|
  {
    if s != [] && IsSpace(s[|s| - 1]) then
      var init := s[..|s| - 1];
      var r := TrimEnd(init);
      assert init[..|r|] == s[..|r|];
      assert forall k :: |r| <= k < |s| - 1 ==> s[k] == init[|r|..][k - |r|];
      assert AllSpace(s[|r|..]) by {
        forall k | 0 <= k < |s| - |r| ensures IsSpace(s[|r|..][k]) {
          if k < |s| - 1 - |r| {
            assert s[|r|..][k] == init[|r|..][k];
          }
        }
      }
      r
    else s
  }

  /** `s.trim()`. */
  function Trim(s: string): (r: string)
    ensures r == [] || (!IsSpace(r[0]) && !IsSpace(r[|r| - 1]))
    ensures |r| <= |s|
  {
    TrimEnd(TrimStart(s))
  }

  /** `Trim(s)` is the slice of `s` between a white-space prefix and a
      white-space suffix. */
  lemma TrimIsSlice(s: string)
    ensures var i := |s| - |TrimStart(s)|;
            i + |Trim(s)| <= |s|
            && Trim(s) == s[i..i + |Trim(s)|]
            && AllSpace(s[..i])
            && AllSpace(s[i + |Trim(s)|..])
  {
    var t := TrimStart(s);
    var i := |s| - |t|;
    var r := TrimEnd(t);
    assert t[|r|..] == s[i + |r|..];
  }

  /** Trimming twice is trimming once. */
  lemma {:induction false} TrimIdempotent(s: string)
    ensures Trim(Trim(s)) == Trim(s)
  {
    var r := Trim(s);
    if r != [] {
      assert TrimStart(r) == r;
      assert TrimEnd(r) == r;
    }
  }

  /** A string trims to the empty string exactly when it is all white space
      (the case `note.trim() || undefined` treats as no note). */
  lemma TrimEmptyIffAllSpace(s: string)
    ensures Trim(s) == [] <==> AllSpace(s)
  {
    var t := TrimStart(s);
    if Trim(s) == [] {
      assert t == [] by { assert AllSpace(t[0..]); }
      assert s[..|s|] == s;
    } else {
      TrimIsSlice(s);
      var i := |s| - |t|;
      assert Trim(s)[0] == s[i];
    }
  }

  /** `toLowerCase` on one character, for ASCII and Latin-1 capitals (which
      covers the Albanian letters Ç and Ë). */
  function LowerChar(c: char): (r: char)
    ensures IsUpper(c) ==> r as int == c as int + 32 && !IsUpper(r)
    ensures !IsUpper(c) ==> r == c
  {
    if IsUpper(c) then (c as int + 32) as char else c
  }

  predicate IsUpper(c: char) {
    ('A' <= c <= 'Z') || ('\U{00C0}' <= c <= '\U{00DE}' && c != '\U{00D7}')
  }

  /** `s.toLowerCase()`, character by character. */
  function Lower(s: string): (r: string)
    ensures |r| == |s|
    ensures forall k :: 0 <= k < |s| ==> r[k] == LowerChar(s[k])
  {
    seq(|s|, k requires 0 <= k < |s| => LowerChar(s[k]))
  }

  /** Lower-casing twice is lower-casing once. */
  lemma LowerIdempotent(s: string)
    ensures Lower(Lower(s)) == Lower(s)
  {
  }

  /** `hay.includes(needle)`. */
  predicate Includes(hay: string, needle: string) {
    exists i :: 0 <= i <= |hay| - |needle| && OccursAt(hay, needle, i)
  }

  predicate OccursAt(hay: string, needle: string, i: int) {
    0 <= i <= |hay| - |needle| && hay[i..i + |needle|] == needle
  }

  /** A string containing `m` contains everything `m` contains. */
  lemma IncludesTransitive(hay: string, m: string, needle: string)
    requires Includes(hay, m) && Includes(m, needle)
    ensures Includes(hay, needle)
  {
    var i :| 0 <= i <= |hay| - |m| && OccursAt(hay, m, i);
    var j :| 0 <= j <= |m| - |needle| && OccursAt(m, needle, j);
    forall k | 0 <= k < |needle| ensures hay[i + j + k] == needle[k] {
      assert hay[i..i + |m|][j + k] == m[j + k];
      assert m[j..j + |needle|][k] == needle[k];
    }
    assert hay[i + j..i + j + |needle|] == needle;
    assert OccursAt(hay, needle, i + j);
  }

  /** A string contains its prefixes, the empty string among them. */
  lemma IncludesPrefix(s: string, prefix: string)
    requires |prefix| <= |s| && s[..|prefix|] == prefix
    ensures Includes(s, prefix)
  {
    assert OccursAt(s, prefix, 0);
  }

  /** Lower-casing keeps prefixes. */
  lemma LowerPrefix(s: string, prefix: string)
    requires |prefix| <= |s| && s[..|prefix|] == prefix
    ensures Lower(s)[..|prefix|] == Lower(prefix)
  {
    assert forall k :: 0 <= k < |prefix| ==> s[k] == prefix[k];
  }

  /** `s.replace(/\s/g, ch)`: every white-space character becomes `ch`. */
  function ReplaceSpaces(s: string, ch: char): (r: string)
    requires !IsSpace(ch)
    ensures |r| == |s|
    ensures !exists k :: 0 <= k < |r| && IsSpace(r[k])
    ensures forall k :: 0 <= k < |s| && IsSpace(s[k]) ==> r[k] == ch
    ensures forall k :: 0 <= k < |s| && !IsSpace(s[k]) ==> r[k] == s[k]

  {
    seq(|s|, k requires 0 <= k < |s| => if IsSpace(s[k]) then ch else s[k])
  }

  /** A string with no white space is left as it is by `ReplaceSpaces`. */
  lemma ReplaceSpacesNoSpace(s: string, ch: char)
    requires !IsSpace(ch)
    requires forall k :: 0 <= k < |s| ==> !IsSpace(s[k])
    ensures ReplaceSpaces(s, ch) == s
  {
  }

  /** `ReplaceSpaces` distributes over concatenation. */
  lemma ReplaceSpacesConcat(a: string, b: string, ch: char)
    requires !IsSpace(ch)
    ensures ReplaceSpaces(a + b, ch) == ReplaceSpaces(a, ch) + ReplaceSpaces(b, ch)
  {
    var l, r := ReplaceSpaces(a + b, ch), ReplaceSpaces(a, ch) + ReplaceSpaces(b, ch);
    forall k | 0 <= k < |l| ensures l[k] == r[k] {
      if k < |a| { assert (a + b)[k] == a[k]; } else { assert (a + b)[k] == b[k - |a|]; }
    }
  }

  function DigitChar(d: nat): (c: char)
    requires d < 10
    ensures '0' <= c <= '9' && c as int - '0' as int == d
  {
    ('0' as int + d) as char
  }

  predicate IsDigit(c: char) {
    '0' <= c <= '9'
  }

  /** `String(n)` for a natural number: its decimal digits, no leading zero. */
  function Decimal(n: nat): (r: string)
    ensures r != []
    ensures forall k :: 0 <= k < |r| ==> IsDigit(r[k])
    ensures r[0] == '0' ==> n == 0
  {
    if n < 10 then [DigitChar(n)] else Decimal(n / 10) + [DigitChar(n % 10)]
  }

  /** `parseInt(s, 10)` on a string of decimal digits. */
  function ParseDecimal(s: string): (n: nat)
    requires forall k :: 0 <= k < |s| ==> IsDigit(s[k])
  {
    if s == [] then 0
    else
      assert IsDigit(s[|s| - 1]);
      ParseDecimal(s[..|s| - 1]) * 10 + (s[|s| - 1] as int - '0' as int)
  }

  /** Parsing the decimal text of a number gives the number back, as the
      report page relies on when it parses the values of its selects. */
  lemma {:induction false} ParseDecimalOfDecimal(n: nat)
    ensures ParseDecimal(Decimal(n)) == n
  {
    if n >= 10 {
      var s := Decimal(n);
      assert s[..|s| - 1] == Decimal(n / 10);
      ParseDecimalOfDecimal(n / 10);
    }
  }
}
