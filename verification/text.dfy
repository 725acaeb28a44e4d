/** The string primitives the source relies on: JavaScript's `\s` class,
    `toLowerCase` and `replace(/\s+/g, '-')`, and Python's `str.isspace`,
    `str.strip`, `str.upper` and the `in` substring test. */
module Text {

  /** Characters matched by `\s` in a JavaScript regular expression. */
  predicate IsJsSpace(c: char)
  {
    || c == '\t' || c == '\n' || c == '\U{B}' || c == '\U{C}' || c == '\r' || c == ' '
    || c == '\U{A0}' || c == '\U{1680}' || ('\U{2000}' <= c <= '\U{200A}')
    || c == '\U{2028}' || c == '\U{2029}' || c == '\U{202F}' || c == '\U{205F}'
    || c == '\U{3000}' || c == '\U{FEFF}'
  }

  /** Characters for which Python's `str.isspace()` holds. */
  predicate IsPySpace(c: char)
  {
    || c == '\t' || c == '\n' || c == '\U{B}' || c == '\U{C}' || c == '\r'
    || ('\U{1C}' <= c <= '\U{1F}') || c == ' ' || c == '\U{85}' || c == '\U{A0}'
    || c == '\U{1680}' || ('\U{2000}' <= c <= '\U{200A}') || c == '\U{2028}'
    || c == '\U{2029}' || c == '\U{202F}' || c == '\U{205F}' || c == '\U{3000}'
  }

  predicate IsAsciiUpper(c: char)
  {
    'A' <= c <= 'Z'
  }

  /** The capital letters of Basic Latin and Latin-1: `A`..`Z` and
      `À`..`Þ` except the multiplication sign. Each lies 32 code points
      below its small letter. */
  predicate IsLatinUpper(c: char)
  {
    IsAsciiUpper(c) || ('\U{C0}' <= c <= '\U{DE}' && c != '\U{D7}')
  }

  /** `toLowerCase` on one character, for the Basic Latin and Latin-1
      letters (the alphabet of the borough names): a capital moves to its
      small letter, any other character stays. */
  function LowerChar(c: char): (d: char)
    ensures !IsLatinUpper(d)
    ensures IsLatinUpper(c) ==> d as int == c as int + 32
    ensures !IsLatinUpper(c) ==> d == c
    ensures IsJsSpace(d) <==> IsJsSpace(c)
  {
    if IsLatinUpper(c) then (c as int + 32) as char else c
  }

  /** `toLowerCase` character by character: no capital is left, each
      capital becomes the letter 32 code points above it, every other
      character (whitespace included) is kept. */
  function ToLower(s: string): (r: string)
    ensures |r| == |s|
    ensures forall i :: 0 <= i < |r| ==> !IsLatinUpper(r[i])
    ensures forall i :: 0 <= i < |r| ==> IsLatinUpper(s[i]) ==> r[i] as int == s[i] as int + 32
    ensures forall i :: 0 <= i < |r| ==> !IsLatinUpper(s[i]) ==> r[i] == s[i]
    ensures forall i :: 0 <= i < |r| ==> (IsJsSpace(r[i]) <==> IsJsSpace(s[i]))
  {
    seq(|s|, i requires 0 <= i < |s| => LowerChar(s[i]))
  }

  /** Lower-casing twice is lower-casing once. */
  lemma ToLowerIdempotent(s: string)
    ensures ToLower(ToLower(s)) == ToLower(s)
  {
    forall i | 0 <= i < |s|
      ensures LowerChar(LowerChar(s[i])) == LowerChar(s[i])
    {
    }
  }

  /** Drops the leading run of `\s` characters. */
  function SkipJsSpaces(s: string): (r: string)
    ensures |r| <= |s|
    ensures r == s[|s| - |r|..]
    ensures forall i :: 0 <= i < |s| - |r| ==> IsJsSpace(s[i])
    ensures |r| > 0 ==> !IsJsSpace(r[0])
  {
    if |s| > 0 && IsJsSpace(s[0]) then SkipJsSpaces(s[1..]) else s
  }

  /** `s.replace(/\s+/g, '-')`: every maximal run of whitespace becomes a
      single dash. */
  function DashRuns(s: string): (r: string)
    ensures |r| <= |s|
    ensures forall i :: 0 <= i < |r| ==> !IsJsSpace(r[i])
    decreases |s|
  {
    if |s| == 0 then ""
    else if IsJsSpace(s[0]) then "-" + DashRuns(SkipJsSpaces(s[1..]))
    else [s[0]] + DashRuns(s[1..])
  }

  /** A string without whitespace is left as it is. */
  lemma {:induction false} DashRunsSinEspacios(s: string)
    requires forall i :: 0 <= i < |s| ==> !IsJsSpace(s[i])
    ensures DashRuns(s) == s
    decreases |s|
  {
    if |s| > 0 {
      assert !IsJsSpace(s[0]);
      DashRunsSinEspacios(s[1..]);
      assert s == [s[0]] + s[1..];
    }
  }

  /** Every character of the result is a dash or a character of `s`, so a
      property of the characters of `s` that the dash also has carries
      over. */
  lemma {:induction false} DashRunsConserva(s: string, p: char -> bool)
    requires p('-')
    requires forall i :: 0 <= i < |s| ==> p(s[i])
    ensures forall i :: 0 <= i < |DashRuns(s)| ==> p(DashRuns(s)[i])
    decreases |s|
  {
    if |s| > 0 {
      if IsJsSpace(s[0]) {
        var t := SkipJsSpaces(s[1..]);
        assert forall i :: 0 <= i < |t| ==> t[i] == s[|s| - |t| + i];
        DashRunsConserva(t, p);
        assert DashRuns(s) == "-" + DashRuns(t);
      } else {
        DashRunsConserva(s[1..], p);
        assert DashRuns(s) == [s[0]] + DashRuns(s[1..]);
      }
    }
  }

  /** A whitespace run between two words collapses to one dash. */
  lemma {:induction false} DashRunsJoin(a: string, gap: string, b: string)
    requires forall i :: 0 <= i < |a| ==> !IsJsSpace(a[i])
    requires |gap| > 0 && forall i :: 0 <= i < |gap| ==> IsJsSpace(gap[i])
    requires |b| > 0 && !IsJsSpace(b[0])
    ensures DashRuns(a + gap + b) == a + "-" + DashRuns(b)
    decreases |a|
  {
    if |a| == 0 {
      assert a + gap + b == gap + b;
      DashRunsGap(gap, b);
    } else {
      var s := a + gap + b;
      assert DashRuns(s) == [a[0]] + (a[1..] + "-" + DashRuns(b)) by {
        assert s[0] == a[0] && !IsJsSpace(s[0]);
        assert s[1..] == a[1..] + gap + b;
        DashRunsJoin(a[1..], gap, b);
      }
      assert a == [a[0]] + a[1..];
    }
  }

  /** A leading whitespace run collapses to one dash. */
  lemma DashRunsGap(gap: string, b: string)
    requires |gap| > 0 && forall i :: 0 <= i < |gap| ==> IsJsSpace(gap[i])
    requires |b| > 0 && !IsJsSpace(b[0])
    ensures DashRuns(gap + b) == "-" + DashRuns(b)
  {
    var s := gap + b;
    assert s[0] == gap[0] && IsJsSpace(s[0]);
    assert s[1..] == gap[1..] + b;
    SkipSpacesPrefix(gap[1..], b);
    assert SkipJsSpaces(s[1..]) == b;
    assert DashRuns(s) == "-" + DashRuns(SkipJsSpaces(s[1..]));
  }

  lemma {:induction false} SkipSpacesPrefix(gap: string, b: string)
    requires forall i :: 0 <= i < |gap| ==> IsJsSpace(gap[i])
    requires |b| > 0 && !IsJsSpace(b[0])
    ensures SkipJsSpaces(gap + b) == b
    decreases |gap|
  {
    if |gap| > 0 {
      assert (gap + b)[1..] == gap[1..] + b;
      SkipSpacesPrefix(gap[1..], b);
    } else {
      assert gap + b == b;
    }
  }

  predicate IsAsciiLower(c: char)
  {
    'a' <= c <= 'z'
  }

  /** Python's `str.upper()` restricted to the ASCII letters: a small
      letter moves 32 code points down to its capital, any other character
      stays. */
  function UpperChar(c: char): (d: char)
    ensures !IsAsciiLower(d)
    ensures IsAsciiLower(c) ==> IsAsciiUpper(d) && d as int == c as int - 32
    ensures !IsAsciiLower(c) ==> d == c
  {
    if IsAsciiLower(c) then (c as int - 32) as char else c
  }

  /** `str.upper()` character by character. */
  function ToUpper(s: string): (r: string)
    ensures |r| == |s|
    ensures forall i :: 0 <= i < |r| ==> !IsAsciiLower(r[i])
    ensures forall i :: 0 <= i < |r| ==> IsAsciiLower(s[i]) ==> r[i] as int == s[i] as int - 32
    ensures forall i :: 0 <= i < |r| ==> !IsAsciiLower(s[i]) ==> r[i] == s[i]
  {
    seq(|s|, i requires 0 <= i < |s| => UpperChar(s[i]))
  }

  /** Python's `w in s` on strings: `w` occurs contiguously in `s`. */
  predicate Contains(s: string, w: string)
    decreases |s|
  {
    |w| <= |s| && (s[..|w|] == w || Contains(s[1..], w))
  }

  /** An occurrence at position `i` is found. */
  lemma {:induction false} ContainsAt(s: string, w: string, i: nat)
    requires i + |w| <= |s| && s[i..i + |w|] == w
    ensures Contains(s, w)
    decreases i
  {
    if i > 0 {
      assert s[1..][i - 1..i - 1 + |w|] == s[i..i + |w|];
      ContainsAt(s[1..], w, i - 1);
    }
  }

  /** Conversely, a string that contains `w` has an occurrence of it at
      some position. */
  lemma {:induction false} ContainsWitness(s: string, w: string) returns (i: nat)
    requires Contains(s, w)
    ensures i + |w| <= |s| && s[i..i + |w|] == w
    decreases |s|
  {
    if s[..|w|] == w {
      i := 0;
    } else {
      var j := ContainsWitness(s[1..], w);
      assert s[1..][j..j + |w|] == s[j + 1..j + 1 + |w|];
      i := j + 1;
    }
  }

  /** Python's `str.strip()`: leading and trailing `isspace` characters are
      removed and nothing else. */
  function Strip(s: string): (r: string)
    ensures |r| <= |s|
    ensures |r| > 0 ==> !IsPySpace(r[0]) && !IsPySpace(r[|r| - 1])
  {
    StripEnd(StripStart(s))
  }

  /** What `Strip` removed is whitespace at both ends, and what it kept is
      the middle of `s`. */
  lemma StripQuitaExtremos(s: string)
    ensures var r := Strip(s);
            var i := |s| - |StripStart(s)|;
            && i + |r| <= |s|
            && r == s[i..i + |r|]
            && (forall k :: 0 <= k < i ==> IsPySpace(s[k]))
            && (forall k :: i + |r| <= k < |s| ==> IsPySpace(s[k]))
  {
    StripMedio(s);
    StripFinal(s);
  }

  lemma StripMedio(s: string)
    ensures |s| - |StripStart(s)| + |Strip(s)| <= |s|
    ensures Strip(s) == s[|s| - |StripStart(s)|..|s| - |StripStart(s)| + |Strip(s)|]
  {
    var t := StripStart(s);
    var r := StripEnd(t);
    var i := |s| - |t|;
    assert Strip(s) == r;
    Rebanada(s, i, |r|);
  }

  lemma Rebanada<T>(s: seq<T>, i: nat, n: nat)
    requires i + n <= |s|
    ensures s[i..][..n] == s[i..i + n]
  {
  }

  lemma StripFinal(s: string)
    ensures forall k :: |s| - |StripStart(s)| + |Strip(s)| <= k < |s| ==> IsPySpace(s[k])
  {
    var t := StripStart(s);
    var r := StripEnd(t);
    var i := |s| - |t|;
    forall k | i + |r| <= k < |s|
      ensures IsPySpace(s[k])
    {
      assert s[k] == t[k - i];
    }
  }

  function StripStart(s: string): (r: string)
    ensures |r| <= |s| && r == s[|s| - |r|..]
    ensures forall k :: 0 <= k < |s| - |r| ==> IsPySpace(s[k])
    ensures |r| > 0 ==> !IsPySpace(r[0])
  {
    if |s| > 0 && IsPySpace(s[0]) then StripStart(s[1..]) else s
  }

  function StripEnd(s: string): (r: string)
    ensures |r| <= |s| && r == s[..|r|]
    ensures forall k :: |r| <= k < |s| ==> IsPySpace(s[k])
    ensures |r| > 0 ==> !IsPySpace(r[|r| - 1])
  {
    if |s| > 0 && IsPySpace(s[|s| - 1]) then StripEnd(s[..|s| - 1]) else s
  }
}
