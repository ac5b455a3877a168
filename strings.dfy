/** Text helpers the builders rely on, stated on Dafny strings (seq<char>):
    PHP's implode, the decimal rendering of integers in string interpolation,
    strtolower (ASCII), trim with one character, and str_replace. */
module Strings {

  predicate IsDigit(c: char) { '0' <= c <= '9' }

  predicate IsUpper(c: char) { 'A' <= c <= 'Z' }

  function DigitChar(d: nat): (c: char)
    requires d < 10
    ensures IsDigit(c) && c as int - '0' as int == d
  {
    (48 + d) as char
  }

  function DigitValue(c: char): (d: nat)
    requires IsDigit(c)
    ensures d < 10
  {
    c as int - '0' as int
  }

  /** Decimal rendering of a natural number, as PHP interpolates an int:
      digits only, no leading zero. */
  function NatToString(n: nat): (s: string)
    ensures |s| > 0
    ensures forall i :: 0 <= i < |s| ==> IsDigit(s[i])
    ensures s[0] == '0' ==> n == 0
    decreases n
  {
    if n < 10 then [DigitChar(n)] else NatToString(n / 10) + [DigitChar(n % 10)]
  }

  /** Decimal rendering of an integer, with a leading '-' when it is negative: after
      the optional sign come only digits, and they read back as the magnitude. */
  function IntToString(i: int): (s: string)
    ensures |s| > 0 && ' ' !in s
    ensures (s[0] == '-') == (i < 0)
    ensures forall k :: (if i < 0 then 1 else 0) <= k < |s| ==> IsDigit(s[k])
    ensures ParseDigits(s[(if i < 0 then 1 else 0)..]) == if i < 0 then -i else i
  {
    var d := NatToString(if i < 0 then -i else i);
    ParseNatToString(if i < 0 then -i else i);
    if i < 0 then
      assert ("-" + d)[1..] == d;
      "-" + d
    else
      assert d[0..] == d;
      d
  }

  /** The value of a string of decimal digits: the reading that NatToString inverts. */
  function ParseDigits(s: string): nat
    requires forall i :: 0 <= i < |s| ==> IsDigit(s[i])
  {
    if |s| == 0 then 0 else 10 * ParseDigits(s[..|s| - 1]) + DigitValue(s[|s| - 1])
  }

  lemma {:induction false} ParseNatToString(n: nat)
    ensures ParseDigits(NatToString(n)) == n
    decreases n
  {
    if n >= 10 {
      var s := NatToString(n);
      assert s[..|s| - 1] == NatToString(n / 10);
      ParseNatToString(n / 10);
    }
  }

  /** Two numbers render to the same text exactly when they are equal. */
  lemma NatToStringInjective(n: nat, m: nat)
    ensures NatToString(n) == NatToString(m) <==> n == m
  {
    if NatToString(n) == NatToString(m) {
      ParseNatToString(n);
      ParseNatToString(m);
    }
  }

  /** PHP's implode(glue, pieces). */
  function Implode(glue: string, pieces: seq<string>): string
  {
    if |pieces| == 0 then ""
    else if |pieces| == 1 then pieces[0]
    else pieces[0] + glue + Implode(glue, pieces[1..])
  }

  lemma {:induction false} ImplodeSnoc(glue: string, pieces: seq<string>, x: string)
    ensures Implode(glue, pieces + [x]) ==
            if |pieces| == 0 then x else Implode(glue, pieces) + glue + x
    decreases |pieces|
  {
    if |pieces| > 1 {
      assert (pieces + [x])[1..] == pieces[1..] + [x];
      ImplodeSnoc(glue, pieces[1..], x);
    } else if |pieces| == 1 {
      assert (pieces + [x])[1..] == [x];
    }
  }

  /** n copies of one piece. */
  function Repeat(x: string, n: nat): (r: seq<string>)
    ensures |r| == n && forall i :: 0 <= i < n ==> r[i] == x
  {
    seq(n, _ => x)
  }

  /** How many times c occurs in s. */
  function CountChar(s: string, c: char): nat
    decreases |s|
  {
    if |s| == 0 then 0 else (if s[0] == c then 1 else 0) + CountChar(s[1..], c)
  }

  lemma {:induction false} CountCharConcat(a: string, b: string, c: char)
    ensures CountChar(a + b, c) == CountChar(a, c) + CountChar(b, c)
    decreases |a|
  {
    if |a| > 0 {
      assert (a + b)[1..] == a[1..] + b;
      CountCharConcat(a[1..], b, c);
    } else {
      assert a + b == b;
    }
  }

  /** A character that does not occur in s is counted zero times. */
  lemma {:induction false} CountCharAbsent(s: string, c: char)
    requires c !in s
    ensures CountChar(s, c) == 0
    decreases |s|
  {
    if |s| > 0 {
      assert s[0] != c;
      assert forall x :: x in s[1..] ==> x in s;
      CountCharAbsent(s[1..], c);
    }
  }

  /** Cuts a string at every occurrence of one separator character; the inverse of
      Implode with that character as glue (see SplitImplode). */
  function SplitOn(s: string, sep: char): (parts: seq<string>)
    ensures |parts| > 0
    decreases |s|
  {
    if |s| == 0 then [""]
    else
      var rest := SplitOn(s[1..], sep);
      if s[0] == sep then [""] + rest else [[s[0]] + rest[0]] + rest[1..]
  }

  lemma {:induction false} SplitOnNoSep(s: string, sep: char)
    requires sep !in s
    ensures SplitOn(s, sep) == [s]
    decreases |s|
  {
    if |s| > 0 {
      SplitOnNoSep(s[1..], sep);
      assert [s[0]] + s[1..] == s;
    }
  }

  lemma {:induction false} SplitOnPrefix(a: string, sep: char, b: string)
    requires sep !in a
    ensures SplitOn(a + [sep] + b, sep) == [a] + SplitOn(b, sep)
    decreases |a|
  {
    if |a| == 0 {
      assert a + [sep] + b == [sep] + b;
      assert ([sep] + b)[1..] == b;
    } else {
      assert (a + [sep] + b)[1..] == a[1..] + [sep] + b;
      SplitOnPrefix(a[1..], sep, b);
      assert [a[0]] + a[1..] == a;
    }
  }

  /** Splitting the imploded pieces on the glue character gives the pieces back,
      provided no piece contains that character. */
  lemma {:induction false} SplitImplode(pieces: seq<string>, sep: char)
    requires |pieces| > 0
    requires forall k :: 0 <= k < |pieces| ==> sep !in pieces[k]
    ensures SplitOn(Implode([sep], pieces), sep) == pieces
    decreases |pieces|
  {
    if |pieces| == 1 {
      SplitOnNoSep(pieces[0], sep);
    } else {
      SplitImplode(pieces[1..], sep);
      SplitOnPrefix(pieces[0], sep, Implode([sep], pieces[1..]));
      assert [pieces[0]] + pieces[1..] == pieces;
    }
  }

  function LowerChar(c: char): char
  {
    if IsUpper(c) then (c as int + 32) as char else c
  }

  /** strtolower for ASCII letters: every capital becomes its lower-case letter, every
      other character is kept, so no capital is left. */
  function ToLower(s: string): (r: string)
    ensures |r| == |s|
    ensures forall i :: 0 <= i < |r| ==> !IsUpper(r[i])
    ensures forall i :: 0 <= i < |s| && !IsUpper(s[i]) ==> r[i] == s[i]
    ensures forall i :: 0 <= i < |s| && IsUpper(s[i]) ==> r[i] as int == s[i] as int + 32
  {
    seq(|s|, i requires 0 <= i < |s| => LowerChar(s[i]))
  }

  /** rtrim(s, c): drops every trailing c. */
  function TrimRight(s: string, c: char): (r: string)
    ensures r <= s
    ensures |r| == 0 || r[|r| - 1] != c
    ensures forall i :: |r| <= i < |s| ==> s[i] == c
    decreases |s|
  {
    if |s| > 0 && s[|s| - 1] == c then TrimRight(s[..|s| - 1], c) else s
  }

  /** ltrim(s, c): drops every leading c. */
  function TrimLeft(s: string, c: char): (r: string)
    ensures |r| <= |s| && r == s[|s| - |r|..]
    ensures |r| == 0 || r[0] != c
    ensures forall i :: 0 <= i < |s| - |r| ==> s[i] == c
    decreases |s|
  {
    if |s| > 0 && s[0] == c then TrimLeft(s[1..], c) else s
  }

  /** trim(s, c): neither end of the result is c, every character of it comes from s,
      and a string without c is left as it is; TrimSlice says which slice of s it is. */
  function Trim(s: string, c: char): (r: string)
    ensures |r| == 0 || (r[0] != c && r[|r| - 1] != c)
    ensures forall x :: x in r ==> x in s
    ensures c !in s ==> r == s
  {
    var t := TrimRight(s, c);
    var r := TrimLeft(t, c);
    assert |r| > 0 ==> r[|r| - 1] == t[|t| - 1];
    assert forall x :: x in r ==> x in t;
    assert forall x :: x in t ==> x in s;
    r
  }

  /** trim(s, c) is the slice of s left once the leading and the trailing run of c
      are dropped. */
  lemma TrimSlice(s: string, c: char)
    ensures exists a, b :: 0 <= a <= b <= |s| && Trim(s, c) == s[a..b]
                           && (forall k :: 0 <= k < a ==> s[k] == c)
                           && (forall k :: b <= k < |s| ==> s[k] == c)
  {
    var t := TrimRight(s, c);
    var r := TrimLeft(t, c);
    var a, b := |t| - |r|, |t|;
    assert r == s[a..b];
    assert forall k :: 0 <= k < a ==> s[k] == t[k];
  }

  /** The pattern occurs in s starting at index i. */
  predicate OccursAt(s: string, pattern: string, i: int)
  {
    0 <= i && i + |pattern| <= |s| && s[i..i + |pattern|] == pattern
  }

  predicate Contains(s: string, pattern: string)
  {
    exists i | 0 <= i <= |s| :: OccursAt(s, pattern, i)
  }

  /** An occurrence in either part is an occurrence in the concatenation. */
  lemma ContainsConcat(a: string, b: string, pattern: string)
    ensures Contains(a, pattern) ==> Contains(a + b, pattern)
    ensures Contains(b, pattern) ==> Contains(a + b, pattern)
  {
    if Contains(a, pattern) {
      var i :| 0 <= i <= |a| && OccursAt(a, pattern, i);
      assert (a + b)[i..i + |pattern|] == a[i..i + |pattern|];
      assert OccursAt(a + b, pattern, i);
    }
    if Contains(b, pattern) {
      var i :| 0 <= i <= |b| && OccursAt(b, pattern, i);
      assert (a + b)[|a| + i..|a| + i + |pattern|] == b[i..i + |pattern|];
      assert OccursAt(a + b, pattern, |a| + i);
    }
  }

  lemma ContainsSelf(s: string)
    ensures Contains(s, s)
  {
    assert OccursAt(s, s, 0);
  }

  /** Every piece occurs in the imploded text. */
  lemma {:induction false} ImplodeContains(glue: string, pieces: seq<string>, k: nat)
    requires k < |pieces|
    ensures Contains(Implode(glue, pieces), pieces[k])
    decreases |pieces|
  {
    if |pieces| == 1 {
      ContainsSelf(pieces[0]);
    } else if k == 0 {
      ContainsSelf(pieces[0]);
      ContainsConcat(pieces[0], glue + Implode(glue, pieces[1..]), pieces[0]);
      assert pieces[0] + glue + Implode(glue, pieces[1..]) == pieces[0] + (glue + Implode(glue, pieces[1..]));
    } else {
      ImplodeContains(glue, pieces[1..], k - 1);
      ContainsConcat(pieces[0] + glue, Implode(glue, pieces[1..]), pieces[k]);
    }
  }

  /** str_replace(search, replace, s) for one search string: scans left to right and
      replaces every non-overlapping occurrence; an empty search leaves s as it is. */
  function ReplaceAll(s: string, search: string, replace: string): string
    decreases |s|
  {
    if |search| == 0 || |s| < |search| then s
    else if s[..|search|] == search then replace + ReplaceAll(s[|search|..], search, replace)
    else [s[0]] + ReplaceAll(s[1..], search, replace)
  }

  lemma OccursInTail(s: string, pattern: string, i: int)
    requires |s| > 0
    ensures OccursAt(s[1..], pattern, i) ==> OccursAt(s, pattern, i + 1)
  {
    if 0 <= i && i + |pattern| <= |s| - 1 {
      assert s[1..][i..i + |pattern|] == s[i + 1..i + 1 + |pattern|];
    }
  }

  /** A string that holds no occurrence is left unchanged. */
  lemma {:induction false} ReplaceAllNoMatch(s: string, search: string, replace: string)
    requires !Contains(s, search)
    ensures ReplaceAll(s, search, replace) == s
    decreases |s|
  {
    if |search| > 0 && |s| >= |search| {
      assert !OccursAt(s, search, 0);
      assert s[0..|search|] == s[..|search|];
      forall i
        ensures !OccursAt(s[1..], search, i)
      {
        OccursInTail(s, search, i);
      }
      ReplaceAllNoMatch(s[1..], search, replace);
      assert [s[0]] + s[1..] == s;
    }
  }

  /** An occurrence of a search string that starts with a space cannot begin inside
      a text without spaces, so such a prefix is copied unchanged. */
  lemma {:induction false} ReplaceAllSkipsSpaceless(x: string, y: string, search: string, replace: string)
    requires |search| > 0 && search[0] == ' ' && ' ' !in x
    ensures ReplaceAll(x + y, search, replace) == x + ReplaceAll(y, search, replace)
    decreases |x|
  {
    if |x| > 0 {
      var s := x + y;
      if |s| < |search| {
        assert ReplaceAll(y, search, replace) == y;
      } else {
        assert s[..|search|][0] == x[0];
        assert s[1..] == x[1..] + y;
        ReplaceAllSkipsSpaceless(x[1..], y, search, replace);
        assert [x[0]] + x[1..] == x;
      }
    } else {
      assert x + y == y;
    }
  }
}
