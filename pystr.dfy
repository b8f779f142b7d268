/** The few Python string built-ins the bot relies on, with Python's semantics:
    repetition of a space, `sep.join(parts)`, `s.split(sep)` for a one-character
    separator, and `str()` of an integer. */
module PyStr {

  /** `" " * n`: n spaces; Python yields the empty string when n is not positive. */
  function Spaces(n: int): (r: string)
    ensures |r| == if n <= 0 then 0 else n
    ensures forall i :: 0 <= i < |r| ==> r[i] == ' '
  {
    if n <= 0 then "" else seq(n, _ => ' ')
  }

  /** `sep.join(parts)`: the parts with one separator between neighbours. */
  function Join(sep: string, parts: seq<string>): string
  {
    if parts == [] then ""
    else if |parts| == 1 then parts[0]
    else parts[0] + sep + Join(sep, parts[1..])
  }

  /** A join starts with its first part and ends with its last part, so
      there is no separator before the first or after the last. */
  lemma {:induction false} JoinEnds(sep: string, parts: seq<string>)
    requires |parts| > 0
    ensures |Join(sep, parts)| >= |parts[0]| && Join(sep, parts)[..|parts[0]|] == parts[0]
    ensures var r, last := Join(sep, parts), parts[|parts| - 1];
            |r| >= |last| && r[|r| - |last|..] == last
  {
    if |parts| > 1 {
      var rest := parts[1..];
      JoinEnds(sep, rest);
      var tail := Join(sep, rest);
      assert Join(sep, parts) == (parts[0] + sep) + tail;
      assert rest[|rest| - 1] == parts[|parts| - 1];
    }
  }

  /** A prefix of a prefix of t is a prefix of t. */
  lemma PrefixOfPrefix(t: string, a: string, b: string)
    requires |a| <= |t| && t[..|a|] == a
    requires |b| <= |a| && a[..|b|] == b
    ensures t[..|b|] == b
  {
    assert t[..|b|] == t[..|a|][..|b|];
  }

  /** A suffix of a suffix of t is a suffix of t. */
  lemma SuffixOfSuffix(t: string, a: string, b: string)
    requires |a| <= |t| && t[|t| - |a|..] == a
    requires |b| <= |a| && a[|a| - |b|..] == b
    ensures t[|t| - |b|..] == b
  {
    assert t[|t| - |b|..] == t[|t| - |a|..][|a| - |b|..];
  }

  /** A join starts as its first part starts and ends as its last part ends. */
  lemma JoinBetween(sep: string, parts: seq<string>, start: string, end: string)
    requires |parts| > 0
    requires |parts[0]| >= |start| && parts[0][..|start|] == start
    requires var last := parts[|parts| - 1]; |last| >= |end| && last[|last| - |end|..] == end
    ensures |Join(sep, parts)| >= |parts[0]|
    ensures |Join(sep, parts)| >= |start| && Join(sep, parts)[..|start|] == start
    ensures |Join(sep, parts)| >= |end| && Join(sep, parts)[|Join(sep, parts)| - |end|..] == end
  {
    JoinEnds(sep, parts);
    PrefixOfPrefix(Join(sep, parts), parts[0], start);
    SuffixOfSuffix(Join(sep, parts), parts[|parts| - 1], end);
  }

  /** A join of three parts, written out. */
  lemma JoinThree(sep: string, a: string, b: string, c: string)
    ensures Join(sep, [a, b, c]) == a + sep + (b + sep + c)
  {
    assert [a, b, c][1..] == [b, c] && [b, c][1..] == [c];
    assert Join(sep, [b, c]) == b + sep + c;
  }

  /** `s.split(sep)` for a single-character separator: never empty, and no
      piece contains the separator. */
  function Split(s: string, sep: char): (r: seq<string>)
    ensures |r| >= 1
    ensures forall i :: 0 <= i < |r| ==> sep !in r[i]
  {
    if s == [] then [""]
    else
      var rest := Split(s[1..], sep);
      if s[0] == sep then [""] + rest
      else [[s[0]] + rest[0]] + rest[1..]
  }

  /** Joining the pieces of a split gives back the string. */
  lemma {:induction false} JoinSplit(s: string, sep: char)
    ensures Join([sep], Split(s, sep)) == s
  {
    if s != [] {
      var rest := Split(s[1..], sep);
      JoinSplit(s[1..], sep);
      if s[0] == sep {
        assert Split(s, sep) == [""] + rest;
        assert ([""] + rest)[1..] == rest;
      } else {
        var r := Split(s, sep);
        assert r == [[s[0]] + rest[0]] + rest[1..];
        if |rest| == 1 {
          assert Join([sep], r) == [s[0]] + rest[0];
        } else {
          assert r[1..] == rest[1..];
          assert Join([sep], rest) == rest[0] + [sep] + Join([sep], rest[1..]);
        }
      }
    }
  }

  /** Splitting a string that begins with a separator-free prefix `a`: the
      prefix becomes the start of the first piece. */
  lemma {:induction false} SplitPrefix(a: string, t: string, sep: char)
    requires sep !in a
    ensures Split(a + t, sep) == [a + Split(t, sep)[0]] + Split(t, sep)[1..]
  {
    if a == [] {
      var st := Split(t, sep);
      assert a + t == t && a + st[0] == st[0];
      assert st == [st[0]] + st[1..];
    } else {
      var st := Split(t, sep);
      SplitPrefix(a[1..], t, sep);
      var rest := Split(a[1..] + t, sep);
      assert (a + t)[1..] == a[1..] + t;
      assert (a + t)[0] == a[0] && a[0] != sep;
      assert Split(a + t, sep) == [[a[0]] + rest[0]] + rest[1..];
      assert rest[0] == a[1..] + st[0] && rest[1..] == st[1..];
      assert [a[0]] + (a[1..] + st[0]) == a + st[0];
    }
  }

  /** Splitting the join of separator-free parts gives back the parts
      (Python: `sep.join(parts).split(sep) == parts` when parts is non-empty). */
  lemma {:induction false} SplitJoin(parts: seq<string>, sep: char)
    requires |parts| >= 1
    requires forall i :: 0 <= i < |parts| ==> sep !in parts[i]
    ensures Split(Join([sep], parts), sep) == parts
  {
    if |parts| == 1 {
      SplitPrefix(parts[0], "", sep);
      assert parts[0] + "" == parts[0];
    } else {
      var tail := Join([sep], parts[1..]);
      SplitJoin(parts[1..], sep);
      assert Split([sep] + tail, sep) == [""] + parts[1..] by {
        assert ([sep] + tail)[1..] == tail;
      }
      SplitPrefix(parts[0], [sep] + tail, sep);
      assert parts[0] + [sep] + tail == parts[0] + ([sep] + tail);
      assert parts[0] + "" == parts[0];
    }
  }

  /** The character of a decimal digit. */
  function DigitChar(d: int): (c: char)
    requires 0 <= d < 10
    ensures '0' <= c <= '9' && c as int - '0' as int == d
  {
    (d + '0' as int) as char
  }

  /** The decimal digits of a natural number, most significant first, with no
      leading zero. */
  function Digits(n: nat): (r: string)
    ensures |r| >= 1
    ensures forall i :: 0 <= i < |r| ==> '0' <= r[i] <= '9'
    ensures n > 0 ==> r[0] != '0'
  {
    if n < 10 then [DigitChar(n)] else Digits(n / 10) + [DigitChar(n % 10)]
  }

  /** `str(n)` for a Python int: optional minus sign, then the decimal digits. */
  function IntToStr(n: int): (r: string)
    ensures |r| >= 1
    ensures '\n' !in r
  {
    if n < 0 then "-" + Digits(-n) else Digits(n)
  }

  /** The number a string of decimal digits denotes (Python `int(s)` on digits). */
  function DigitsValue(s: string): int
  {
    if s == [] then 0
    else DigitsValue(s[..|s| - 1]) * 10 + (s[|s| - 1] as int - '0' as int)
  }

  /** The number an optionally signed decimal string denotes. */
  function StrToInt(s: string): int
  {
    if |s| > 0 && s[0] == '-' then -DigitsValue(s[1..]) else DigitsValue(s)
  }

  lemma {:induction false} DigitsRoundTrip(n: nat)
    ensures DigitsValue(Digits(n)) == n
  {
    if n >= 10 {
      DigitsRoundTrip(n / 10);
      var r := Digits(n);
      assert r[..|r| - 1] == Digits(n / 10);
    }
  }

  /** `int(str(n)) == n`: the decimal rendering loses nothing. */
  lemma IntToStrRoundTrip(n: int)
    ensures StrToInt(IntToStr(n)) == n
  {
    if n < 0 {
      DigitsRoundTrip(-n);
      assert ("-" + Digits(-n))[1..] == Digits(-n);
    } else {
      DigitsRoundTrip(n);
    }
  }
}
