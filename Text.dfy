/**
  The few pieces of the .NET string library the editor code relies on, written out as
  functions over `seq<char>`: String.Replace, String.Split(char), LastIndexOf/IndexOf of a
  character, Int32.ToString() and Convert.ToInt32 on a decimal text.
 */
module Text {
  import opened Wrappers

  /** Does `pat` start at position `i` of `s`? */
  predicate OccursAt(s: string, pat: string, i: nat) {
    i + |pat| <= |s| && s[i..i + |pat|] == pat
  }

  /** Does `pat` occur anywhere in `s`? */
  predicate Occurs(s: string, pat: string) {
    exists i: nat :: i <= |s| && OccursAt(s, pat, i)
  }

  /** String.Replace(pat, rep): every non-overlapping occurrence of `pat`, scanned from the left, becomes `rep`. */
  function ReplaceAll(s: string, pat: string, rep: string): string
    requires |pat| > 0
    decreases |s|
  {
    if |s| < |pat| then s
    else if s[..|pat|] == pat then rep + ReplaceAll(s[|pat|..], pat, rep)
    else [s[0]] + ReplaceAll(s[1..], pat, rep)
  }

  /** Replacing a pattern that does not occur changes nothing. */
  lemma {:induction false} ReplaceAllAbsent(s: string, pat: string, rep: string)
    requires |pat| > 0
    ensures !Occurs(s, pat) ==> ReplaceAll(s, pat, rep) == s
    decreases |s|
  {
    if |s| >= |pat| && !Occurs(s, pat) {
      assert s[0..0 + |pat|] == s[..|pat|];
      assert !OccursAt(s, pat, 0);
      OccursInTail(s, pat);
      ReplaceAllAbsent(s[1..], pat, rep);
    }
  }

  /** An occurrence in the tail of a text is an occurrence in the text. */
  lemma OccursInTail(s: string, pat: string)
    requires |s| > 0
    ensures Occurs(s[1..], pat) ==> Occurs(s, pat)
  {
    if Occurs(s[1..], pat) {
      var i: nat :| i <= |s[1..]| && OccursAt(s[1..], pat, i);
      assert i + |pat| <= |s[1..]| && s[1..][i..i + |pat|] == pat;
      assert s[i + 1..i + 1 + |pat|] == s[1..][i..i + |pat|];
      assert OccursAt(s, pat, i + 1);
    }
  }

  /** A pattern cannot occur in a text that lacks its first character. */
  lemma AbsentWithoutFirstChar(s: string, pat: string)
    requires |pat| > 0 && pat[0] !in s
    ensures !Occurs(s, pat)
  {
    forall i: nat | i <= |s| ensures !OccursAt(s, pat, i) {
      if i + |pat| <= |s| {
        assert s[i..i + |pat|][0] == s[i];
      }
    }
  }

  /**
    When the last character of `pat` appears nowhere earlier in it, a text free of `pat`
    stays free of it after every proper prefix of `pat` is appended.
   */
  lemma NoStraddle(x: string, pat: string)
    requires |pat| > 0 && !Occurs(x, pat)
    requires forall t :: 0 <= t < |pat| - 1 ==> pat[t] != pat[|pat| - 1]
    ensures !Occurs(x + pat[..|pat| - 1], pat)
  {
    var s := x + pat[..|pat| - 1];
    forall i: nat | i <= |s| ensures !OccursAt(s, pat, i) {
      if i + |pat| <= |s| {
        if i + |pat| <= |x| {
          assert s[i..i + |pat|] == x[i..i + |pat|];
          assert !OccursAt(x, pat, i);
        } else {
          var t := i + |pat| - 1 - |x|;
          assert s[i..i + |pat|][|pat| - 1] == s[i + |pat| - 1] == pat[t];
        }
      }
    }
  }

  /**
    The leftmost scan replaces the first occurrence of `pat` in `x + pat + y` at the end of `x`
    when no occurrence starts earlier, and then carries on through `y`.
   */
  lemma {:induction false} ReplaceFirst(x: string, pat: string, rep: string, y: string)
    requires |pat| > 0 && !Occurs(x + pat[..|pat| - 1], pat)
    ensures ReplaceAll(x + pat + y, pat, rep) == x + rep + ReplaceAll(y, pat, rep)
    decreases |x|
  {
    var s := x + pat + y;
    if x == [] {
      assert s[..|pat|] == pat && s[|pat|..] == y;
    } else {
      var w := x + pat[..|pat| - 1];
      assert s[..|pat|] != pat by {
        assert s[..|pat|] == w[0..0 + |pat|];
        assert !OccursAt(w, pat, 0);
      }
      assert ReplaceAll(s, pat, rep) == [s[0]] + ReplaceAll(s[1..], pat, rep);
      assert s[1..] == x[1..] + pat + y;
      assert !Occurs(x[1..] + pat[..|pat| - 1], pat) by {
        assert w[1..] == x[1..] + pat[..|pat| - 1];
        OccursInTail(w, pat);
      }
      ReplaceFirst(x[1..], pat, rep, y);
      assert [s[0]] + (x[1..] + rep + ReplaceAll(y, pat, rep)) == x + rep + ReplaceAll(y, pat, rep);
    }
  }

  /** Removing a single character distributes over concatenation. */
  lemma {:induction false} RemoveCharAppend(a: string, b: string, c: char)
    ensures ReplaceAll(a + b, [c], "") == ReplaceAll(a, [c], "") + ReplaceAll(b, [c], "")
    decreases |a|
  {
    if a != [] {
      assert (a + b)[1..] == a[1..] + b;
      assert (a + b)[..1] == a[..1] == [a[0]];
      RemoveCharAppend(a[1..], b, c);
      if a[0] == c {
        assert ReplaceAll(a + b, [c], "") == ReplaceAll(a[1..] + b, [c], "");
        assert ReplaceAll(a, [c], "") == ReplaceAll(a[1..], [c], "");
      } else {
        assert ReplaceAll(a + b, [c], "") == [a[0]] + ReplaceAll(a[1..] + b, [c], "");
        assert ReplaceAll(a, [c], "") == [a[0]] + ReplaceAll(a[1..], [c], "");
      }
    } else {
      assert a + b == b;
    }
  }

  /** Removing a single character keeps exactly the other characters. */
  lemma {:induction false} RemoveCharAbsent(s: string, c: char)
    requires c !in s
    ensures ReplaceAll(s, [c], "") == s
    decreases |s|
  {
    if s != [] {
      assert s[..1] == [s[0]];
      RemoveCharAbsent(s[1..], c);
    }
  }

  /** String.Split(sep): the pieces between separators; always at least one, possibly empty ones. */
  function Split(s: string, sep: char): (parts: seq<string>)
    ensures |parts| >= 1
    ensures forall i :: 0 <= i < |parts| ==> sep !in parts[i]
    decreases |s|
  {
    if s == [] then [""]
    else
      var rest := Split(s[1..], sep);
      if s[0] == sep then [""] + rest else [[s[0]] + rest[0]] + rest[1..]
  }

  /** String.Join(sep, parts). */
  function Join(parts: seq<string>, sep: char): string
    requires |parts| >= 1
    decreases |parts|
  {
    if |parts| == 1 then parts[0] else parts[0] + [sep] + Join(parts[1..], sep)
  }

  /** Splitting loses nothing: joining the pieces gives the text back. */
  lemma {:induction false} JoinSplit(s: string, sep: char)
    ensures Join(Split(s, sep), sep) == s
    decreases |s|
  {
    if s != [] {
      var rest := Split(s[1..], sep);
      JoinSplit(s[1..], sep);
      if s[0] == sep {
        assert Split(s, sep)[1..] == rest;
      } else {
        var parts := Split(s, sep);
        if |rest| == 1 {
          assert parts == [[s[0]] + rest[0]];
        } else {
          assert parts[1..] == rest[1..];
          assert Join(rest, sep) == rest[0] + [sep] + Join(rest[1..], sep);
        }
      }
    }
  }

  /** A text without the separator is one piece. */
  lemma {:induction false} SplitWithoutSeparator(s: string, sep: char)
    requires sep !in s
    ensures Split(s, sep) == [s]
    decreases |s|
  {
    if s != [] {
      SplitWithoutSeparator(s[1..], sep);
      assert [s[0]] + s[1..] == s;
    }
  }

  /** A separator between two texts splits them apart. */
  lemma {:induction false} SplitAround(a: string, b: string, sep: char)
    ensures Split(a + [sep] + b, sep) == Split(a, sep) + Split(b, sep)
    decreases |a|
  {
    if a == [] {
      assert a + [sep] + b == [sep] + b;
      assert ([sep] + b)[1..] == b;
    } else {
      assert (a + [sep] + b)[1..] == a[1..] + [sep] + b;
      SplitAround(a[1..], b, sep);
    }
  }

  /** String.LastIndexOf(c): the last position holding `c`, or -1. */
  function LastIndexOf(s: string, c: char): (r: int)
    ensures -1 <= r < |s|
    ensures r >= 0 ==> s[r] == c
    ensures forall i :: r < i < |s| ==> s[i] != c
    decreases |s|
  {
    if s == [] then -1
    else if s[|s| - 1] == c then |s| - 1
    else LastIndexOf(s[..|s| - 1], c)
  }

  /** String.IndexOf(c): the first position holding `c`, or -1. */
  function IndexOf(s: string, c: char): (r: int)
    ensures -1 <= r < |s|
    ensures r >= 0 ==> s[r] == c
    ensures forall i :: 0 <= i < |s| && (r < 0 || i < r) ==> s[i] != c
    decreases |s|
  {
    if s == [] then -1
    else if s[0] == c then 0
    else
      var k := IndexOf(s[1..], c);
      if k < 0 then -1 else k + 1
  }

  predicate IsDigit(c: char) {
    '0' <= c <= '9'
  }

  function DigitChar(d: nat): (c: char)
    requires d < 10
    ensures IsDigit(c)
  {
    (('0' as int) + d) as char
  }

  /** The decimal digits of `n`, most significant first, with no leading zero. */
  function NatToString(n: nat): (s: string)
    ensures |s| >= 1
    ensures forall i :: 0 <= i < |s| ==> IsDigit(s[i])
    decreases n
  {
    if n < 10 then [DigitChar(n)] else NatToString(n / 10) + [DigitChar(n % 10)]
  }

  /** Int32.ToString(): a minus sign for negative values, then the decimal digits. */
  function IntToString(i: int): (r: string)
    ensures |r| >= 1 && (r[0] == '-' <==> i < 0)
    ensures i >= 0 ==> IsDigit(r[0])
    ensures forall k :: 0 < k < |r| ==> IsDigit(r[k])
  {
    if i < 0 then "-" + NatToString(-i) else NatToString(i)
  }

  /** The value of a text of decimal digits. */
  function DigitsValue(s: string): nat
    requires forall i :: 0 <= i < |s| ==> IsDigit(s[i])
    decreases |s|
  {
    if s == [] then 0
    else
      assert IsDigit(s[|s| - 1]);
      DigitsValue(s[..|s| - 1]) * 10 + (s[|s| - 1] as int - '0' as int)
  }

  /** Reading back the decimal digits of `n` gives `n`. */
  lemma {:induction false} DigitsValueOfNatToString(n: nat)
    ensures DigitsValue(NatToString(n)) == n
    decreases n
  {
    if n >= 10 {
      var s := NatToString(n);
      assert s[..|s| - 1] == NatToString(n / 10);
      DigitsValueOfNatToString(n / 10);
    }
  }

  /** Int32.ToString() gives different texts to different values, and its text never holds '/'. */
  lemma IntToStringInjective(a: int, b: int)
    ensures IntToString(a) == IntToString(b) <==> a == b
    ensures '/' !in IntToString(a)
  {
    var text := IntToString(a);
    forall k | 0 <= k < |text| ensures text[k] != '/' {
      if k > 0 || a >= 0 {
        assert IsDigit(text[k]);
      }
    }
    if IntToString(a) == IntToString(b) {
      var sa, sb := IntToString(a), IntToString(b);
      assert sa[0] == '-' <==> a < 0;
      assert sb[0] == '-' <==> b < 0;
      if a < 0 {
        assert sa[1..] == NatToString(-a) && sb[1..] == NatToString(-b);
        DigitsValueOfNatToString(-a);
        DigitsValueOfNatToString(-b);
      } else {
        assert sa == NatToString(a) && sb == NatToString(b);
        DigitsValueOfNatToString(a);
        DigitsValueOfNatToString(b);
      }
    }
  }

  const Int32Max := 2147483647

  /**
    Convert.ToInt32 restricted to texts of plain decimal digits: its value when it fits in an
    `int`, nothing when the text is empty, holds another character, or is too large.
   */
  function ParseInt32(s: string): (r: Option<nat>)
    ensures r.Some? ==> r.value <= Int32Max
    ensures r.Some? <==> |s| > 0 && (forall i :: 0 <= i < |s| ==> IsDigit(s[i])) && DigitsValue(s) <= Int32Max
    ensures r.Some? ==> r.value == DigitsValue(s)
  {
    if |s| > 0 && (forall i :: 0 <= i < |s| ==> IsDigit(s[i])) && DigitsValue(s) <= Int32Max
    then Some(DigitsValue(s)) else None
  }

  /** Parsing the decimal text of any number up to Int32.MaxValue gives back that number. */
  lemma ParseInt32OfNatToString(n: nat)
    requires n <= Int32Max
    ensures ParseInt32(NatToString(n)) == Some(n)
  {
    DigitsValueOfNatToString(n);
  }

  /** Convert.ToInt32 would accept a leading sign; the model does not. */
  lemma ParseInt32RejectsSign(s: string)
    ensures ParseInt32("-" + s).None? && ParseInt32("+" + s).None?
  {
    assert ("-" + s)[0] == '-' && ("+" + s)[0] == '+';
  }

  /** The first separator of `x + [sep] + y` is the one after `x` when `x` holds none. */
  lemma IndexOfSeparated(x: string, y: string, sep: char)
    requires sep !in x
    ensures IndexOf(x + [sep] + y, sep) == |x|
  {
    var s := x + [sep] + y;
    assert s[|x|] == sep;
    assert forall i :: 0 <= i < |x| ==> s[i] == x[i];
  }

  /** Two texts each followed by a separator they do not contain are told apart at that separator. */
  lemma SeparatedPrefix(x1: string, y1: string, x2: string, y2: string, sep: char)
    requires sep !in x1 && sep !in x2
    requires x1 + [sep] + y1 == x2 + [sep] + y2
    ensures x1 == x2 && y1 == y2
  {
    var s := x1 + [sep] + y1;
    IndexOfSeparated(x1, y1, sep);
    IndexOfSeparated(x2, y2, sep);
    assert x1 == s[..|x1|] == x2;
    assert y1 == s[|x1| + 1..] == y2;
  }

  /** ASCII case folding, the part of ordinal case-insensitive comparison the model keeps. */
  function ToLower(c: char): char {
    if 'A' <= c <= 'Z' then (c as int + 32) as char else c
  }

  predicate EqualsIgnoreCase(a: string, b: string) {
    |a| == |b| && forall i :: 0 <= i < |a| ==> ToLower(a[i]) == ToLower(b[i])
  }
}
