/** The Python string builtins the converter is written with:
    str.strip / str.lstrip (with and without a character set),
    str.split(sep) and re.findall(r'\d+', s). */
module PyText {
  import opened Wrappers

  /** The characters for which Python's str.isspace() holds; str.strip()
      with no argument removes exactly these from both ends. */
  predicate IsSpace(c: char) {
    var n := c as int;
    || (0x09 <= n <= 0x0D) || (0x1C <= n <= 0x20) || n == 0x85 || n == 0xA0
    || n == 0x1680 || (0x2000 <= n <= 0x200A) || n == 0x2028 || n == 0x2029
    || n == 0x202F || n == 0x205F || n == 0x3000
  }

  /** An ASCII decimal digit (what `\d` matches here). */
  predicate IsDigit(c: char) {
    '0' <= c <= '9'
  }

  /** Whether strip removes c: with chars == None (no argument) the
      whitespace characters, otherwise the characters of chars. */
  predicate Stripped(c: char, chars: Option<set<char>>) {
    match chars
    case None => IsSpace(c)
    case Some(cs) => c in cs
  }

  predicate AllDigits(w: string) {
    forall i :: 0 <= i < |w| ==> IsDigit(w[i])
  }

  /** No character of s is a digit. */
  predicate NoDigits(s: string) {
    forall i :: 0 <= i < |s| ==> !IsDigit(s[i])
  }

  /** s.lstrip(chars): the longest suffix of s whose first character is not stripped. */
  function TrimStart(s: string, chars: Option<set<char>>): (r: string)
    ensures |r| <= |s|
    ensures forall i :: 0 <= i < |s| - |r| ==> Stripped(s[i], chars)
    ensures r == [] || !Stripped(r[0], chars)
  {
    if s == [] || !Stripped(s[0], chars) then s else TrimStart(s[1..], chars)
  }

  /** s.rstrip(chars): the longest prefix of s whose last character is not stripped. */
  function TrimEnd(s: string, chars: Option<set<char>>): (r: string)
    ensures |r| <= |s|
    ensures forall i :: |r| <= i < |s| ==> Stripped(s[i], chars)
    ensures r == [] || !Stripped(r[|r| - 1], chars)
  {
    if s == [] || !Stripped(s[|s| - 1], chars) then s else TrimEnd(s[..|s| - 1], chars)
  }

  /** s.strip(chars): both ends trimmed. */
  function Trim(s: string, chars: Option<set<char>>): (r: string)
    ensures |r| <= |s|
    ensures r == [] || (!Stripped(r[0], chars) && !Stripped(r[|r| - 1], chars))
  {
    TrimEndPrefix(TrimStart(s, chars), chars);
    TrimEnd(TrimStart(s, chars), chars)
  }

  /** lstrip keeps a suffix of s. */
  lemma {:induction false} TrimStartSuffix(s: string, chars: Option<set<char>>)
    ensures TrimStart(s, chars) == s[|s| - |TrimStart(s, chars)|..]
  {
    if s != [] && Stripped(s[0], chars) {
      TrimStartSuffix(s[1..], chars);
    }
  }

  /** rstrip keeps a prefix of s. */
  lemma {:induction false} TrimEndPrefix(s: string, chars: Option<set<char>>)
    ensures TrimEnd(s, chars) == s[..|TrimEnd(s, chars)|]
  {
    if s != [] && Stripped(s[|s| - 1], chars) {
      TrimEndPrefix(s[..|s| - 1], chars);
    }
  }

  /** The trimmed text is the slice of s between the stripped ends. */
  lemma TrimIsSlice(s: string, chars: Option<set<char>>)
    ensures var k := |s| - |TrimStart(s, chars)|; var r := Trim(s, chars);
      k + |r| <= |s| && r == s[k..k + |r|]
  {
    TrimStartSuffix(s, chars);
    TrimEndPrefix(TrimStart(s, chars), chars);
  }

  /** The trimmed text is empty exactly when every character of s is stripped. */
  lemma TrimEmpty(s: string, chars: Option<set<char>>)
    ensures (forall i :: 0 <= i < |s| ==> Stripped(s[i], chars)) <==> Trim(s, chars) == []
  {
    var t := TrimStart(s, chars);
    if TrimEnd(t, chars) == [] {
      assert t == [];
    } else {
      TrimStartSuffix(s, chars);
      assert !Stripped(s[|s| - |t|], chars);
    }
  }

  /** s.strip() with no argument. */
  function Strip(s: string): string {
    Trim(s, None)
  }

  /** The whitespace int() and float() skip around a number. Below U+0080
      they skip only tab, line feed, vertical tab, form feed, carriage return
      and space, so they keep the separators U+001C..U+001F that
      str.isspace() counts; above it they skip what str.isspace() skips. */
  const NumberSpaces: set<char> := {
    '\t', '\n', '\U{B}', '\U{C}', '\r', ' ', '\U{85}', '\U{A0}', '\U{1680}',
    '\U{2000}', '\U{2001}', '\U{2002}', '\U{2003}', '\U{2004}', '\U{2005}', '\U{2006}',
    '\U{2007}', '\U{2008}', '\U{2009}', '\U{200A}', '\U{2028}', '\U{2029}', '\U{202F}',
    '\U{205F}', '\U{3000}' }

  /** NumberSpaces is the str.isspace() set less U+001C..U+001F. */
  lemma NumberSpacesAreSpaces(c: char)
    ensures c in NumberSpaces <==> IsSpace(c) && !('\U{1C}' <= c <= '\U{1F}')
  {
  }

  /** The stripping int() and float() do before reading a number. */
  function NumberStrip(s: string): string {
    Trim(s, Some(NumberSpaces))
  }

  /** Trimming a string that already starts and ends with kept characters
      changes nothing. */
  lemma TrimKept(s: string, chars: Option<set<char>>)
    requires s != [] && !Stripped(s[0], chars) && !Stripped(s[|s| - 1], chars)
    ensures Trim(s, chars) == s
  {
  }

  /** Trimming the front of a + b: the front of a goes first, and only when
      all of a is stripped does trimming reach into b. */
  lemma {:induction false} TrimStartAppend(a: string, b: string, chars: Option<set<char>>)
    ensures TrimStart(a + b, chars)
         == if TrimStart(a, chars) == [] then TrimStart(b, chars) else TrimStart(a, chars) + b
  {
    if a == [] {
      assert a + b == b;
    } else if Stripped(a[0], chars) {
      assert (a + b)[1..] == a[1..] + b;
      assert TrimStart(a + b, chars) == TrimStart(a[1..] + b, chars);
      TrimStartAppend(a[1..], b, chars);
    } else {
      assert TrimStart(a + b, chars) == a + b;
    }
  }

  /** Trim of a string followed by one kept character. */
  lemma TrimEndsWithKept(a: string, c: char, chars: Option<set<char>>)
    requires !Stripped(c, chars)
    ensures Trim(a + [c], chars) == TrimStart(a, chars) + [c]
  {
    TrimStartAppend(a, [c], chars);
    var t := TrimStart(a, chars) + [c];
    assert TrimEnd(t, chars) == t;
  }

  /** Trimming is idempotent on the front. */
  lemma TrimStartTwice(s: string, chars: Option<set<char>>)
    ensures TrimStart(TrimStart(s, chars), chars) == TrimStart(s, chars)
  {
  }

  /** How many times c occurs in s. */
  function Occurrences(s: string, c: char): nat {
    if s == [] then 0 else (if s[0] == c then 1 else 0) + Occurrences(s[1..], c)
  }

  /** The inverse of Split: sep.join(parts). */
  function Join(parts: seq<string>, sep: char): string
    requires |parts| >= 1
  {
    if |parts| == 1 then parts[0] else parts[0] + [sep] + Join(parts[1..], sep)
  }

  /** s.split(sep) for a one-character separator: the pieces between the
      occurrences of sep, one more piece than there are separators. */
  function Split(s: string, sep: char): (parts: seq<string>)
    ensures |parts| == Occurrences(s, sep) + 1
    ensures forall i :: 0 <= i < |parts| ==> sep !in parts[i]
    ensures Join(parts, sep) == s
  {
    if s == [] then [[]]
    else
      var rest := Split(s[1..], sep);
      if s[0] == sep then
        assert ([[]] + rest)[1..] == rest;
        [[]] + rest
      else
        var parts := [[s[0]] + rest[0]] + rest[1..];
        assert parts[1..] == rest[1..];
        assert s == [s[0]] + s[1..];
        parts
  }

  /** Splitting a join of separator-free pieces gives the pieces back. */
  lemma {:induction false} SplitJoin(parts: seq<string>, sep: char)
    requires |parts| >= 1
    requires forall i :: 0 <= i < |parts| ==> sep !in parts[i]
    ensures Split(Join(parts, sep), sep) == parts
  {
    if |parts| == 1 {
      SplitSepFree(parts[0], sep);
    } else {
      SplitJoin(parts[1..], sep);
      SplitAfter(parts[0], Join(parts[1..], sep), sep);
      assert [parts[0]] + parts[1..] == parts;
    }
  }

  /** A string without the separator is a single piece. */
  lemma {:induction false} SplitSepFree(s: string, sep: char)
    requires sep !in s
    ensures Split(s, sep) == [s]
  {
    if s != [] {
      SplitSepFree(s[1..], sep);
    }
  }

  /** A separator-free head followed by the separator splits off as one piece. */
  lemma {:induction false} SplitAfter(a: string, b: string, sep: char)
    requires sep !in a
    ensures Split(a + [sep] + b, sep) == [a] + Split(b, sep)
  {
    if a == [] {
      assert a + [sep] + b == [sep] + b;
      assert ([sep] + b)[1..] == b;
    } else {
      assert (a + [sep] + b)[1..] == a[1..] + [sep] + b;
      SplitAfter(a[1..], b, sep);
      assert [a[0]] + a[1..] == a;
    }
  }

  /** Length of the longest all-digit prefix of s. */
  function DigitPrefix(s: string): (n: nat)
    ensures n <= |s|
    ensures forall i :: 0 <= i < n ==> IsDigit(s[i])
    ensures n == |s| || !IsDigit(s[n])
  {
    if s == [] || !IsDigit(s[0]) then 0 else 1 + DigitPrefix(s[1..])
  }

  /** re.findall(r'\d+', s): the maximal runs of digits in s, left to right. */
  function DigitRuns(s: string): (runs: seq<string>)
    ensures forall k :: 0 <= k < |runs| ==> runs[k] != [] && AllDigits(runs[k])
    decreases |s|
  {
    if s == [] then []
    else if !IsDigit(s[0]) then DigitRuns(s[1..])
    else
      var n := DigitPrefix(s);
      [s[..n]] + DigitRuns(s[n..])
  }

  /** Position i is where a run of digits begins. */
  predicate StartsRun(s: string, i: nat)
    requires i < |s|
  {
    IsDigit(s[i]) && (i == 0 || !IsDigit(s[i - 1]))
  }

  /** The number of positions at or after lo that begin a run of digits. */
  function RunStartsFrom(s: string, lo: nat): nat
    requires lo <= |s|
    decreases |s| - lo
  {
    if lo == |s| then 0 else (if StartsRun(s, lo) then 1 else 0) + RunStartsFrom(s, lo + 1)
  }

  /** Inside a run nothing new starts, so the count is the same from any
      position inside it as from its end. */
  lemma {:induction false} NoStartsInsideRun(s: string, lo: nat, hi: nat)
    requires 0 < lo <= hi <= |s|
    requires forall i :: lo - 1 <= i < hi ==> IsDigit(s[i])
    ensures RunStartsFrom(s, lo) == RunStartsFrom(s, hi)
    decreases hi - lo
  {
    if lo < hi {
      NoStartsInsideRun(s, lo + 1, hi);
    }
  }

  /** findall finds one match per position that begins a run, counted from
      any position that is not in the middle of a run. */
  lemma {:induction false} DigitRunsCountFrom(s: string, lo: nat)
    requires lo <= |s|
    requires lo == 0 || lo == |s| || !IsDigit(s[lo - 1]) || !IsDigit(s[lo])
    ensures |DigitRuns(s[lo..])| == RunStartsFrom(s, lo)
    decreases |s| - lo
  {
    if lo < |s| {
      var t := s[lo..];
      if !IsDigit(s[lo]) {
        assert t[1..] == s[lo + 1..];
        DigitRunsCountFrom(s, lo + 1);
      } else {
        var n := DigitPrefix(t);
        assert t[n..] == s[lo + n..];
        forall i | lo <= i < lo + n ensures IsDigit(s[i]) {
          assert s[i] == t[i - lo];
        }
        NoStartsInsideRun(s, lo + 1, lo + n);
        assert lo + n == |s| || !IsDigit(s[lo + n]) by {
          if lo + n < |s| { assert s[lo + n] == t[n]; }
        }
        DigitRunsCountFrom(s, lo + n);
      }
    }
  }

  /** The number of digit runs re.findall returns is the number of
      positions that begin a run. */
  lemma DigitRunsCount(s: string)
    ensures |DigitRuns(s)| == RunStartsFrom(s, 0)
  {
    DigitRunsCountFrom(s, 0);
    assert s[0..] == s;
  }

  /** Text without digits contributes no run. */
  lemma {:induction false} DigitRunsSkip(a: string, b: string)
    requires NoDigits(a)
    ensures DigitRuns(a + b) == DigitRuns(b)
  {
    if a == [] {
      assert a + b == b;
    } else {
      assert (a + b)[1..] == a[1..] + b;
      DigitRunsSkip(a[1..], b);
    }
  }

  /** A run of digits followed by a non-digit (or nothing) is one match. */
  lemma DigitRunsTake(d: string, b: string)
    requires d != [] && AllDigits(d)
    requires b == [] || !IsDigit(b[0])
    ensures DigitRuns(d + b) == [d] + DigitRuns(b)
  {
    var s := d + b;
    var n := DigitPrefix(s);
    assert b != [] ==> s[|d|] == b[0];
    assert forall i :: 0 <= i < |d| ==> s[i] == d[i];
    assert s[..n] == d && s[n..] == b;
  }

  /** Text without digits after s does not change its digit prefix. */
  lemma {:induction false} DigitPrefixAppend(s: string, b: string)
    requires NoDigits(b)
    ensures DigitPrefix(s + b) == DigitPrefix(s)
  {
    if s == [] {
      assert b != [] ==> !IsDigit(b[0]);
    } else {
      assert (s + b)[1..] == s[1..] + b;
      DigitPrefixAppend(s[1..], b);
    }
  }

  /** Text without digits after s adds no match. */
  lemma {:induction false} DigitRunsDropTail(s: string, b: string)
    requires NoDigits(b)
    ensures DigitRuns(s + b) == DigitRuns(s)
    decreases |s|
  {
    if s == [] {
      assert s + b == b;
      DigitRunsSkip(b, []);
      assert b + [] == b;
    } else if !IsDigit(s[0]) {
      assert (s + b)[1..] == s[1..] + b;
      DigitRunsDropTail(s[1..], b);
    } else {
      var n := DigitPrefix(s);
      DigitPrefixAppend(s, b);
      assert (s + b)[..n] == s[..n];
      assert (s + b)[n..] == s[n..] + b;
      DigitRunsDropTail(s[n..], b);
    }
  }

  /** Whitespace is not a digit. */
  lemma SpaceNotDigit(s: string)
    requires forall i :: 0 <= i < |s| ==> IsSpace(s[i])
    ensures NoDigits(s)
  {
  }

  /** re.findall(r'\d+') finds the same runs with or without strip() first. */
  lemma RunsIgnoreStrip(s: string)
    ensures DigitRuns(Strip(s)) == DigitRuns(s)
  {
    var a, b := StripEnds(s);
    SpaceNotDigit(a);
    SpaceNotDigit(b);
    DigitRunsSkip(a, Strip(s) + b);
    DigitRunsDropTail(Strip(s), b);
  }

  /** strip() removes whitespace before and after what it keeps. */
  lemma StripEnds(s: string) returns (a: string, b: string)
    ensures s == a + (Strip(s) + b)
    ensures forall i :: 0 <= i < |a| ==> IsSpace(a[i])
    ensures forall i :: 0 <= i < |b| ==> IsSpace(b[i])
  {
    a := LeadingSpaces(s);
    b := TrailingSpaces(TrimStart(s, None));
  }

  /** lstrip() removes whitespace in front of what it keeps. */
  lemma LeadingSpaces(s: string) returns (a: string)
    ensures s == a + TrimStart(s, None)
    ensures forall i :: 0 <= i < |a| ==> IsSpace(a[i])
  {
    TrimStartSuffix(s, None);
    a := s[..|s| - |TrimStart(s, None)|];
  }

  /** rstrip() removes whitespace after what it keeps. */
  lemma TrailingSpaces(t: string) returns (b: string)
    ensures t == TrimEnd(t, None) + b
    ensures forall i :: 0 <= i < |b| ==> IsSpace(b[i])
  {
    var m := TrimEnd(t, None);
    TrimEndPrefix(t, None);
    b := t[|m|..];
    assert forall i :: 0 <= i < |b| ==> b[i] == t[|m| + i];
  }

}
