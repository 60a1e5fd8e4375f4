/** The Python `str` operations the file comparator relies on, over `seq<char>`. */
module PyStr {
  import opened Seqs

  /** `c.isspace()`: the characters Python 3 treats as whitespace, which are
      also the ones `str.strip()` removes when called without an argument. */
  predicate IsSpace(c: char) {
    var n := c as int;
    || 0x09 <= n <= 0x0D
    || 0x1C <= n <= 0x20
    || n == 0x85 || n == 0xA0 || n == 0x1680
    || 0x2000 <= n <= 0x200A
    || n == 0x2028 || n == 0x2029 || n == 0x202F || n == 0x205F || n == 0x3000
  }

  /** `s.lstrip()` */
  function TrimStart(s: string): (r: string)
    ensures |r| <= |s|
  {
    if s != [] && IsSpace(s[0]) then TrimStart(s[1..]) else s
  }

  /** `s.rstrip()` */
  function TrimEnd(s: string): (r: string)
    ensures |r| <= |s|
  {
    if s != [] && IsSpace(s[|s| - 1]) then TrimEnd(s[..|s| - 1]) else s
  }

  /** `lstrip` removes exactly the leading whitespace. */
  lemma {:induction false} TrimStartSpec(s: string)
    ensures TrimStart(s) == s[|s| - |TrimStart(s)|..]
    ensures TrimStart(s) != [] ==> !IsSpace(TrimStart(s)[0])
    ensures forall k :: 0 <= k < |s| - |TrimStart(s)| ==> IsSpace(s[k])
  {
    if s != [] && IsSpace(s[0]) {
      TrimStartSpec(s[1..]);
    }
  }

  /** `rstrip` removes exactly the trailing whitespace. */
  lemma {:induction false} TrimEndSpec(s: string)
    ensures TrimEnd(s) == s[..|TrimEnd(s)|]
    ensures TrimEnd(s) != [] ==> !IsSpace(TrimEnd(s)[|TrimEnd(s)| - 1])
    ensures forall k :: |TrimEnd(s)| <= k < |s| ==> IsSpace(s[k])
  {
    if s != [] && IsSpace(s[|s| - 1]) {
      TrimEndSpec(s[..|s| - 1]);
    }
  }

  /** `s.strip()` */
  function Strip(s: string): (r: string)
    ensures |r| <= |s|
  {
    TrimEnd(TrimStart(s))
  }

  /** `strip` keeps a factor of its argument that neither starts nor ends with
      whitespace, and gives the empty string exactly for all-whitespace input. */
  lemma StripSpec(s: string)
    ensures exists i, j ::
      && 0 <= i <= j <= |s| && Strip(s) == s[i..j]
      && (forall k :: 0 <= k < i ==> IsSpace(s[k]))
      && (forall k :: j <= k < |s| ==> IsSpace(s[k]))
    ensures forall c :: c in Strip(s) ==> c in s
    ensures Strip(s) != [] ==> !IsSpace(Strip(s)[0]) && !IsSpace(Strip(s)[|Strip(s)| - 1])
    ensures Strip(s) == [] <==> forall k :: 0 <= k < |s| ==> IsSpace(s[k])
  {
    var t := TrimStart(s);
    var r := TrimEnd(t);
    TrimStartSpec(s);
    TrimEndSpec(t);
    assert forall k :: |s| - |t| <= k < |s| ==> s[k] == t[k - (|s| - |t|)];
    assert forall k :: 0 <= k < |r| ==> r[k] == t[k];
    StripFactor(s);
  }

  /** Where `strip` cuts: everything before `|s| - |lstrip(s)|` and everything
      after the stripped text is whitespace. */
  lemma StripFactor(s: string)
    ensures var i := |s| - |TrimStart(s)|;
      && i + |Strip(s)| <= |s| && Strip(s) == s[i..i + |Strip(s)|]
      && (forall k :: 0 <= k < i ==> IsSpace(s[k]))
      && (forall k :: i + |Strip(s)| <= k < |s| ==> IsSpace(s[k]))
  {
    var t := TrimStart(s);
    var r := TrimEnd(t);
    TrimStartSpec(s);
    TrimEndSpec(t);
    var i := |s| - |t|;
    assert t[..|r|] == s[i..i + |r|];
    assert forall k :: i + |r| <= k < |s| ==> s[k] == t[k - i];
  }

  /** The truth value of `s.strip()`: the string has a non-whitespace character. */
  predicate HasContent(s: string) {
    Strip(s) != ""
  }

  lemma HasContentMeansNonSpace(s: string)
    ensures HasContent(s) <==> exists k :: 0 <= k < |s| && !IsSpace(s[k])
  {
    StripSpec(s);
  }

  /** Stripping a stripped string changes nothing. */
  lemma {:induction false} StripIdempotent(s: string)
    ensures Strip(Strip(s)) == Strip(s)
  {
    var r := Strip(s);
    StripSpec(s);
    assert TrimStart(r) == r;
    assert TrimEnd(r) == r;
  }

  /** Trailing whitespace does not change the stripped string. */
  lemma {:induction false} StripAppendSpace(s: string, c: char)
    requires IsSpace(c)
    ensures Strip(s + [c]) == Strip(s)
  {
    StripSpec(s);
    StripSpec(s + [c]);
    if forall k :: 0 <= k < |s| ==> IsSpace(s[k]) {
      assert forall k :: 0 <= k < |s + [c]| ==> IsSpace((s + [c])[k]);
    } else {
      TrimStartAppend(s, c);
      var t := TrimStart(s);
      assert (t + [c])[..|t + [c]| - 1] == t;
    }
  }

  lemma {:induction false} TrimStartAppend(s: string, c: char)
    requires exists k :: 0 <= k < |s| && !IsSpace(s[k])
    ensures TrimStart(s + [c]) == TrimStart(s) + [c]
  {
    if IsSpace(s[0]) {
      assert (s + [c])[1..] == s[1..] + [c];
      var k :| 0 <= k < |s| && !IsSpace(s[k]);
      assert !IsSpace(s[1..][k - 1]);
      TrimStartAppend(s[1..], c);
    }
  }

  /** `s.startswith(prefix)` */
  predicate StartsWith(s: string, prefix: string) {
    |prefix| <= |s| && s[..|prefix|] == prefix
  }

  /** `s.split(sep)` for a one-character separator: the pieces between the
      occurrences of `sep`, always at least one. */
  function Split(s: string, sep: char): (r: seq<string>)
    ensures |r| >= 1
  {
    if s == [] then [""]
    else
      var rest := Split(s[1..], sep);
      if s[0] == sep then [""] + rest else [[s[0]] + rest[0]] + rest[1..]
  }

  /** No piece of a split contains the separator. */
  lemma {:induction false} SplitPieces(s: string, sep: char)
    ensures forall k :: 0 <= k < |Split(s, sep)| ==> sep !in Split(s, sep)[k]
  {
    if s != [] {
      SplitPieces(s[1..], sep);
      var rest := Split(s[1..], sep);
      if s[0] != sep {
        assert sep !in [s[0]] + rest[0];
      }
    }
  }

  /** `sep.join(parts)` */
  function Join(parts: seq<string>, sep: string): string {
    if parts == [] then ""
    else if |parts| == 1 then parts[0]
    else parts[0] + sep + Join(parts[1..], sep)
  }

  /** Joining the pieces of a split with the separator gives the string back. */
  lemma {:induction false} JoinOfSplit(s: string, sep: char)
    ensures Join(Split(s, sep), [sep]) == s
  {
    if s != [] {
      var c, t := s[0], s[1..];
      assert s == [c] + t;
      JoinOfSplit(t, sep);
      SplitCons(c, t, sep);
      var rest := Split(t, sep);
      var r := Split(s, sep);
      if c == sep {
        assert r == [""] + rest && r[1..] == rest;
      } else if |rest| == 1 {
        assert r == [[c] + rest[0]];
      } else {
        assert r[0] == [c] + rest[0] && r[1..] == rest[1..];
        calc {
          Join(r, [sep]);
          ([c] + rest[0]) + [sep] + Join(rest[1..], [sep]);
          [c] + (rest[0] + [sep] + Join(rest[1..], [sep]));
          [c] + Join(rest, [sep]);
        }
      }
    }
  }

  /** A string without the separator splits into itself. */
  lemma {:induction false} SplitWithoutSeparator(s: string, sep: char)
    requires sep !in s
    ensures Split(s, sep) == [s]
  {
    if s != [] {
      assert sep !in s[1..];
      SplitWithoutSeparator(s[1..], sep);
      assert s[0] != sep && [s[0]] + s[1..] == s;
    }
  }

  /** One occurrence of the separator cuts the split in two. */
  lemma {:induction false} SplitConcat(x: string, y: string, sep: char)
    ensures Split(x + [sep] + y, sep) == Split(x, sep) + Split(y, sep)
  {
    if x == [] {
      assert x + [sep] + y == [sep] + y;
      SplitCons(sep, y, sep);
    } else {
      var c, t := x[0], x[1..] + [sep] + y;
      assert x + [sep] + y == [c] + t;
      assert x == [c] + x[1..];
      var px, py := Split(x[1..], sep), Split(y, sep);
      SplitConcat(x[1..], y, sep);
      assert Split(t, sep) == px + py;
      SplitCons(c, t, sep);
      SplitCons(c, x[1..], sep);
      if c == sep {
        calc {
          Split([c] + t, sep);
          [""] + (px + py);
          { AppendAssoc([""], px, py); }
          ([""] + px) + py;
        }
      } else {
        calc {
          Split([c] + t, sep);
          [[c] + (px + py)[0]] + (px + py)[1..];
          { assert (px + py)[0] == px[0] && (px + py)[1..] == px[1..] + py; }
          [[c] + px[0]] + (px[1..] + py);
          { AppendAssoc([[c] + px[0]], px[1..], py); }
          ([[c] + px[0]] + px[1..]) + py;
        }
      }
    }
  }

  /** The split of a string that starts with `c`. */
  lemma SplitCons(c: char, t: string, sep: char)
    ensures Split([c] + t, sep) == if c == sep then [""] + Split(t, sep) else [[c] + Split(t, sep)[0]] + Split(t, sep)[1..]
  {
    assert ([c] + t)[1..] == t;
  }

  /** The pieces of each part, in order. */
  function SplitEach(parts: seq<string>, sep: char): seq<string> {
    if parts == [] then [] else Split(parts[0], sep) + SplitEach(parts[1..], sep)
  }

  /** Splitting a join splits every part on its own: no piece spans two parts. */
  lemma {:induction false} SplitOfJoin(parts: seq<string>, sep: char)
    requires |parts| >= 1
    ensures Split(Join(parts, [sep]), sep) == SplitEach(parts, sep)
  {
    if |parts| > 1 {
      SplitOfJoin(parts[1..], sep);
      SplitConcat(parts[0], Join(parts[1..], [sep]), sep);
    }
  }

  /** Parts without the separator are recovered exactly from their join. */
  lemma {:induction false} SplitJoinRoundTrip(parts: seq<string>, sep: char)
    requires |parts| >= 1
    requires forall k :: 0 <= k < |parts| ==> sep !in parts[k]
    ensures Split(Join(parts, [sep]), sep) == parts
  {
    SplitOfJoin(parts, sep);
    SplitEachWithoutSeparator(parts, sep);
  }

  lemma {:induction false} SplitEachWithoutSeparator(parts: seq<string>, sep: char)
    requires forall k :: 0 <= k < |parts| ==> sep !in parts[k]
    ensures SplitEach(parts, sep) == parts
  {
    if parts != [] {
      SplitWithoutSeparator(parts[0], sep);
      SplitEachWithoutSeparator(parts[1..], sep);
    }
  }

  /** The value of a string of decimal digits. */
  function DecimalValue(s: string): nat
    requires forall c :: c in s ==> '0' <= c <= '9'
  {
    if s == [] then 0
    else
      var init, last := s[..|s| - 1], s[|s| - 1];
      assert last in s && forall c :: c in init ==> c in s;
      DecimalValue(init) * 10 + ((last as int) - ('0' as int))
  }

  /** `str(n)` for a non-negative integer: its decimal digits, with no leading zero. */
  function NatToString(n: nat): (r: string)
    ensures |r| >= 1 && (r[0] == '0' ==> r == "0")
    ensures forall c :: c in r ==> '0' <= c <= '9'
    ensures DecimalValue(r) == n
  {
    var d := (('0' as int) + n % 10) as char;
    if n < 10 then [d]
    else
      var r := NatToString(n / 10) + [d];
      assert r[..|r| - 1] == NatToString(n / 10);
      r
  }

  /** `s.endswith(suffix)` */
  predicate EndsWith(s: string, suffix: string) {
    |suffix| <= |s| && s[|s| - |suffix|..] == suffix
  }

  /** `c.upper()` on ASCII: `a`-`z` become `A`-`Z`, other characters stay. */
  function UpperChar(c: char): char {
    if 'a' <= c <= 'z' then (c as int - 32) as char else c
  }

  /** `s.upper()` for strings of ASCII characters. */
  function AsciiUpper(s: string): string {
    if s == [] then [] else [UpperChar(s[0])] + AsciiUpper(s[1..])
  }
}
