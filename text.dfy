/**
 * The text operations both checks use to build their reports: lines joined by newlines,
 * splitting at a character, and the decimal rendering of the parser's line and column numbers.
 */
module Text {
  import opened Options

  /** The lines joined with one newline between consecutive lines and none at the end. */
  function JoinLines(lines: seq<string>): string
  {
    if |lines| == 0 then ""
    else if |lines| == 1 then lines[0]
    else lines[0] + "\n" + JoinLines(lines[1..])
  }

  /** The text before the first occurrence of `c` and the text after it, when `c` occurs. */
  function SplitAt(s: string, c: char): (r: Option<(string, string)>)
    ensures r.None? <==> c !in s
    ensures r.Some? ==> s == r.value.0 + [c] + r.value.1 && c !in r.value.0
  {
    if |s| == 0 then None
    else if s[0] == c then Some(([], s[1..]))
    else match SplitAt(s[1..], c)
      case None => None
      case Some(parts) => Some(([s[0]] + parts.0, parts.1))
  }

  /** Splitting at `c` finds the first `c`, whatever follows it. */
  lemma {:induction false} SplitAtFirst(a: string, c: char, b: string)
    requires c !in a
    ensures SplitAt(a + [c] + b, c) == Some((a, b))
  {
    var s := a + [c] + b;
    if |a| == 0 {
      assert s == [c] + b;
      assert s[1..] == b;
    } else {
      assert s[0] == a[0] != c;
      assert s[1..] == a[1..] + [c] + b;
      SplitAtFirst(a[1..], c, b);
      assert [a[0]] + a[1..] == a;
    }
  }

  /** The text cut at every newline; the inverse of JoinLines. */
  function SplitLines(s: string): (lines: seq<string>)
    ensures |lines| >= 1
    decreases |s|
  {
    match SplitAt(s, '\n')
    case None => [s]
    case Some(parts) => [parts.0] + SplitLines(parts.1)
  }

  /** True when no line contains a newline. */
  predicate NoNewlines(lines: seq<string>)
  {
    forall i :: 0 <= i < |lines| ==> '\n' !in lines[i]
  }

  /** Joining lines that hold no newline and splitting the result again gives back the lines. */
  lemma {:induction false} SplitJoinLines(lines: seq<string>)
    requires |lines| >= 1 && NoNewlines(lines)
    ensures SplitLines(JoinLines(lines)) == lines
  {
    if |lines| == 1 {
      assert '\n' !in lines[0];
    } else {
      assert '\n' !in lines[0];
      assert NoNewlines(lines[1..]) by {
        forall i | 0 <= i < |lines| - 1 ensures '\n' !in lines[1..][i] {
          assert lines[1..][i] == lines[i + 1];
        }
      }
      SplitAtFirst(lines[0], '\n', JoinLines(lines[1..]));
      SplitJoinLines(lines[1..]);
      assert JoinLines(lines) == lines[0] + ['\n'] + JoinLines(lines[1..]);
    }
  }

  /** Joined lines contain a character exactly when a line does or it is the newline between two lines. */
  lemma {:induction false} JoinLinesContains(lines: seq<string>, c: char)
    requires c != '\n'
    ensures c in JoinLines(lines) <==> exists i :: 0 <= i < |lines| && c in lines[i]
  {
    if |lines| >= 2 {
      JoinLinesContains(lines[1..], c);
      assert JoinLines(lines) == lines[0] + "\n" + JoinLines(lines[1..]);
      if c in JoinLines(lines) && c !in lines[0] {
        var i :| 0 <= i < |lines| - 1 && c in lines[1..][i];
        assert c in lines[i + 1];
      }
      if exists i :: 0 <= i < |lines| && c in lines[i] {
        var i :| 0 <= i < |lines| && c in lines[i];
        if i > 0 {
          assert c in lines[1..][i - 1];
        }
      }
    }
  }

  predicate IsDigit(c: char)
  {
    '0' <= c <= '9'
  }

  predicate AllDigits(s: string)
  {
    forall i :: 0 <= i < |s| ==> IsDigit(s[i])
  }

  function DigitChar(d: nat): (c: char)
    requires d < 10
    ensures IsDigit(c)
  {
    (48 + d) as char
  }

  function DigitValue(c: char): (d: nat)
    requires IsDigit(c)
    ensures d < 10
  {
    c as int - 48
  }

  /** The shortest decimal rendering of `n`: at least one digit and no leading zero. */
  function NatToString(n: nat): (s: string)
    ensures |s| >= 1 && AllDigits(s)
    ensures |s| > 1 ==> s[0] != '0'
  {
    if n < 10 then [DigitChar(n)]
    else NatToString(n / 10) + [DigitChar(n % 10)]
  }

  /** An integer as Kotlin renders it in a string template: a minus sign for negatives, then the digits. */
  function IntToString(n: int): (s: string)
  {
    if n < 0 then "-" + NatToString(-n) else NatToString(n)
  }

  /** The value of a string of decimal digits, read most significant first. */
  function DigitsValue(s: string): nat
    requires AllDigits(s)
  {
    if |s| == 0 then 0 else 10 * DigitsValue(s[..|s| - 1]) + DigitValue(s[|s| - 1])
  }

  /** The integer a decimal rendering denotes, if it is one: optional minus sign, then one or more digits. */
  function ParseInt(s: string): Option<int>
  {
    if |s| >= 2 && s[0] == '-' && AllDigits(s[1..]) then Some(-(DigitsValue(s[1..]) as int))
    else if |s| >= 1 && AllDigits(s) then Some(DigitsValue(s))
    else None
  }

  lemma {:induction false} DigitsValueOfNatToString(n: nat)
    ensures DigitsValue(NatToString(n)) == n
  {
    var s := NatToString(n);
    if n >= 10 {
      DigitsValueOfNatToString(n / 10);
      assert s[..|s| - 1] == NatToString(n / 10);
    }
  }

  /** Reading a rendered integer back gives the integer: the rendering loses nothing. */
  lemma ParseIntToString(n: int)
    ensures ParseInt(IntToString(n)) == Some(n)
  {
    if n < 0 {
      DigitsValueOfNatToString(-n);
      assert IntToString(n)[1..] == NatToString(-n);
    } else {
      DigitsValueOfNatToString(n);
    }
  }

  /** A rendered integer holds only digits and a leading minus sign, so no separator of a report line. */
  lemma IntToStringChars(n: int)
    ensures forall i :: 0 <= i < |IntToString(n)| ==> IsDigit(IntToString(n)[i]) || IntToString(n)[i] == '-'
  {
  }
}
