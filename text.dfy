/**
 * The Python string builtins the scraper relies on: `str.strip(chars)`,
 * `str.split()` (on whitespace), `str.split(sep)[0]`, `str.startswith`,
 * `str.isnumeric` and `int(str)`, over ASCII.
 */
module Text {
  import opened Wrappers

  /** The ASCII characters Python's `str.isspace` accepts. */
  const Whitespace: set<char> :=
    {' ', '\t', '\n', '\r', '\U{B}', '\U{C}', '\U{1C}', '\U{1D}', '\U{1E}', '\U{1F}'}

  predicate IsSpace(c: char) { c in Whitespace }

  predicate IsDigit(c: char) { '0' <= c <= '9' }

  predicate AllIn(s: string, cs: set<char>) { forall k :: 0 <= k < |s| ==> s[k] in cs }

  predicate StartsWith(s: string, prefix: string) { |prefix| <= |s| && s[..|prefix|] == prefix }

  // ---------------------------------------------------------------- strip

  /** `s.lstrip(cs)`: drop the longest prefix made of characters of `cs`. */
  function TrimLeft(s: string, cs: set<char>): (r: string)
    ensures |r| <= |s| && r == s[|s| - |r|..]
    ensures forall k :: 0 <= k < |s| - |r| ==> s[k] in cs
    ensures r != [] ==> r[0] !in cs
    decreases |s|
  {
    if s != [] && s[0] in cs then TrimLeft(s[1..], cs) else s
  }

  /** `s.rstrip(cs)`: drop the longest suffix made of characters of `cs`. */
  function TrimRight(s: string, cs: set<char>): (r: string)
    ensures |r| <= |s| && r == s[..|r|]
    ensures forall k :: |r| <= k < |s| ==> s[k] in cs
    ensures r != [] ==> r[|r| - 1] !in cs
    decreases |s|
  {
    if s != [] && s[|s| - 1] in cs then TrimRight(s[..|s| - 1], cs) else s
  }

  /** `s.strip(cs)`. */
  function Strip(s: string, cs: set<char>): (r: string)
    ensures |r| <= |s|
    ensures r != [] ==> r[0] !in cs && r[|r| - 1] !in cs
  {
    TrimRight(TrimLeft(s, cs), cs)
  }

  /** The position in `s` where `Strip(s, cs)` starts. */
  function StripStart(s: string, cs: set<char>): nat
  {
    |s| - |TrimLeft(s, cs)|
  }

  /**
   * `Strip(s, cs)` is the contiguous piece of `s` that is left once the margins
   * made of characters of `cs` are cut away: everything before it and after it
   * is in `cs`, and nothing inside it is removed.
   */
  lemma StripIsSlice(s: string, cs: set<char>)
    ensures var i := StripStart(s, cs); var m := Strip(s, cs);
      i + |m| <= |s| && m == s[i..i + |m|] &&
      AllIn(s[..i], cs) && AllIn(s[i + |m|..], cs)
  {
    var t := TrimLeft(s, cs);
    var i := |s| - |t|;
    var m := TrimRight(t, cs);
    assert t == s[i..] && m == t[..|m|];
    TrimLeftMargin(s, cs);
    TrimRightMargin(t, cs);
    SliceOfSuffix(s, i, |m|);
    assert m == s[i..i + |m|] && t[|m|..] == s[i + |m|..];
  }

  /** What left-trimming drops is made of `cs` characters. */
  lemma TrimLeftMargin(s: string, cs: set<char>)
    ensures AllIn(s[..|s| - |TrimLeft(s, cs)|], cs)
  {
    var i := |s| - |TrimLeft(s, cs)|;
    forall k | 0 <= k < i ensures s[..i][k] in cs {
      assert s[..i][k] == s[k];
    }
  }

  /** What right-trimming drops is made of `cs` characters. */
  lemma TrimRightMargin(t: string, cs: set<char>)
    ensures AllIn(t[|TrimRight(t, cs)|..], cs)
  {
    var n := |TrimRight(t, cs)|;
    forall k | 0 <= k < |t| - n ensures t[n..][k] in cs {
      assert t[n..][k] == t[n + k];
    }
  }

  /** A prefix of a suffix is a slice, and what follows it is the rest of the sequence. */
  lemma SliceOfSuffix<T>(s: seq<T>, i: nat, n: nat)
    requires i + n <= |s|
    ensures s[i..][..n] == s[i..i + n] && s[i..][n..] == s[i + n..]
  {
  }

  /** Left-trimming skips a margin made of `cs` characters and stops at the first other one. */
  lemma {:induction false} TrimLeftPadded(a: string, t: string, cs: set<char>)
    requires AllIn(a, cs)
    requires t != [] ==> t[0] !in cs
    ensures TrimLeft(a + t, cs) == t
  {
    if a == [] {
      assert a + t == t;
    } else {
      assert (a + t)[0] == a[0];
      assert (a + t)[1..] == a[1..] + t;
      assert AllIn(a[1..], cs) by {
        assert forall k :: 0 <= k < |a[1..]| ==> a[1..][k] == a[k + 1];
      }
      TrimLeftPadded(a[1..], t, cs);
    }
  }

  /** Right-trimming skips a margin made of `cs` characters and stops at the last other one. */
  lemma {:induction false} TrimRightPadded(t: string, b: string, cs: set<char>)
    requires AllIn(b, cs)
    requires t != [] ==> t[|t| - 1] !in cs
    ensures TrimRight(t + b, cs) == t
  {
    if b == [] {
      assert t + b == t;
    } else {
      var n := |b| - 1;
      assert (t + b)[|t + b| - 1] == b[n];
      assert (t + b)[..|t + b| - 1] == t + b[..n];
      assert AllIn(b[..n], cs) by {
        assert forall k :: 0 <= k < n ==> b[..n][k] == b[k];
      }
      TrimRightPadded(t, b[..n], cs);
    }
  }

  /**
   * `strip` is determined by the margins alone: a piece with no `cs` character
   * at either end, padded on both sides by characters of `cs`, strips back to
   * that piece.
   */
  lemma StripPadded(a: string, m: string, b: string, cs: set<char>)
    requires AllIn(a, cs) && AllIn(b, cs)
    requires m != [] ==> m[0] !in cs && m[|m| - 1] !in cs
    ensures Strip(a + m + b, cs) == m
  {
    if m == [] {
      assert a + m + b == (a + b) + [];
      AllInConcat(a, b, cs);
      TrimLeftPadded(a + b, [], cs);
      TrimRightPadded([], [], cs);
    } else {
      assert a + m + b == a + (m + b);
      TrimLeftPadded(a, m + b, cs);
      TrimRightPadded(m, b, cs);
    }
  }

  /** Stripping twice is stripping once. */
  lemma StripIdempotent(s: string, cs: set<char>)
    ensures Strip(Strip(s, cs), cs) == Strip(s, cs)
  {
    StripClean(Strip(s, cs), cs);
  }

  /** A string without margin characters strips to itself. */
  lemma StripClean(s: string, cs: set<char>)
    requires s != [] ==> s[0] !in cs && s[|s| - 1] !in cs
    ensures Strip(s, cs) == s
  {
    assert [] + s + [] == s;
    StripPadded([], s, [], cs);
  }

  /** Stripping removes characters but never introduces one. */
  lemma StripKeepsOut(s: string, cs: set<char>, c: char)
    requires c !in s
    ensures c !in Strip(s, cs)
  {
    StripIsSlice(s, cs);
    var i := StripStart(s, cs);
    var m := Strip(s, cs);
    forall k | 0 <= k < |m| ensures m[k] != c {
      assert m[k] == s[i + k];
    }
  }

  lemma AllInConcat(x: string, y: string, cs: set<char>)
    requires AllIn(x, cs) && AllIn(y, cs)
    ensures AllIn(x + y, cs)
  {
    forall k | 0 <= k < |x + y| ensures (x + y)[k] in cs {
      if k >= |x| { assert (x + y)[k] == y[k - |x|]; }
    }
  }

  /** Extra margin characters on either side do not change the stripped result. */
  lemma StripPadMore(l: string, s: string, r: string, cs: set<char>)
    requires AllIn(l, cs) && AllIn(r, cs)
    ensures Strip(l + s + r, cs) == Strip(s, cs)
  {
    assert l + s + r == l + (s + r);
    TrimLeftMore(l, s + r, cs);
    var t := TrimLeft(s, cs);
    if t != [] {
      TrimLeftAppend(s, r, cs);
      TrimRightMore(t, r, cs);
    } else {
      assert AllIn(s, cs);
      AllInConcat(s, r, cs);
      TrimLeftPadded(s + r, [], cs);
    }
  }

  /** A margin of `cs` characters in front is trimmed away with the rest. */
  lemma {:induction false} TrimLeftMore(l: string, s: string, cs: set<char>)
    requires AllIn(l, cs)
    ensures TrimLeft(l + s, cs) == TrimLeft(s, cs)
  {
    if l == [] {
      assert l + s == s;
    } else {
      assert (l + s)[0] == l[0];
      assert (l + s)[1..] == l[1..] + s;
      assert AllIn(l[1..], cs) by {
        assert forall k :: 0 <= k < |l[1..]| ==> l[1..][k] == l[k + 1];
      }
      TrimLeftMore(l[1..], s, cs);
    }
  }

  /** A margin of `cs` characters at the end is trimmed away with the rest. */
  lemma {:induction false} TrimRightMore(s: string, r: string, cs: set<char>)
    requires AllIn(r, cs)
    ensures TrimRight(s + r, cs) == TrimRight(s, cs)
  {
    if r == [] {
      assert s + r == s;
    } else {
      var n := |r| - 1;
      assert (s + r)[|s + r| - 1] == r[n];
      assert (s + r)[..|s + r| - 1] == s + r[..n];
      assert AllIn(r[..n], cs) by {
        assert forall k :: 0 <= k < n ==> r[..n][k] == r[k];
      }
      TrimRightMore(s, r[..n], cs);
    }
  }

  /** Left-trimming a string that does not trim away entirely leaves whatever follows it untouched. */
  lemma {:induction false} TrimLeftAppend(s: string, r: string, cs: set<char>)
    requires TrimLeft(s, cs) != []
    ensures TrimLeft(s + r, cs) == TrimLeft(s, cs) + r
  {
    assert (s + r)[0] == s[0];
    if s[0] in cs {
      assert (s + r)[1..] == s[1..] + r;
      TrimLeftAppend(s[1..], r, cs);
    }
  }

  // ---------------------------------------------------------------- split

  /** `s.split(sep)[0]`: the text before the first `sep`, or all of `s`. */
  function BeforeFirst(s: string, sep: char): (r: string)
    ensures |r| <= |s| && r == s[..|r|]
    ensures sep !in r
    ensures |r| == |s| || s[|r|] == sep
  {
    if s == [] || s[0] == sep then [] else [s[0]] + BeforeFirst(s[1..], sep)
  }

  /** The text before a separator that does not occur earlier is everything up to it. */
  lemma BeforeFirstStops(a: string, sep: char, b: string)
    requires sep !in a
    ensures BeforeFirst(a + [sep] + b, sep) == a
  {
    var s := a + [sep] + b;
    var r := BeforeFirst(s, sep);
    assert s[|a|] == sep;
    assert forall k :: 0 <= k < |a| ==> s[k] == a[k];
    assert |r| <= |a|;
    assert |r| == |a|;
    assert r == s[..|a|] == a;
  }

  predicate NoSpace(w: string) { forall k :: 0 <= k < |w| ==> !IsSpace(w[k]) }

  /** The length of the run of non-whitespace characters that starts `s`. */
  function WordLength(s: string): (n: nat)
    ensures n <= |s| && NoSpace(s[..n])
    ensures n == |s| || IsSpace(s[n])
  {
    if s == [] || IsSpace(s[0]) then 0
    else
      var n := 1 + WordLength(s[1..]);
      assert s[..n] == [s[0]] + s[1..][..n - 1];
      n
  }

  /** `s.split()`: the maximal runs of non-whitespace characters, in order. */
  function Words(s: string): (ws: seq<string>)
    ensures forall k :: 0 <= k < |ws| ==> ws[k] != [] && NoSpace(ws[k])
    ensures ws == [] <==> forall k :: 0 <= k < |s| ==> IsSpace(s[k])
    decreases |s|
  {
    if s == [] then []
    else if IsSpace(s[0]) then
      var ws := Words(s[1..]);
      assert forall k :: 1 <= k < |s| ==> s[k] == s[1..][k - 1];
      ws
    else
      var n := WordLength(s);
      [s[..n]] + Words(s[n..])
  }

  /** A word ended by whitespace is the run `WordLength` measures. */
  lemma WordLengthOf(w: string, c: char, rest: string)
    requires NoSpace(w) && IsSpace(c)
    ensures WordLength(w + [c] + rest) == |w|
  {
    var s := w + [c] + rest;
    var n := WordLength(s);
    assert s[|w|] == c;
    assert forall i :: 0 <= i < |w| ==> s[i] == w[i];
    assert forall i :: 0 <= i < n ==> s[..n][i] == s[i];
  }

  /**
   * Together, `WordsCons`, `WordsLeadingSpace` and `WordsSingle` pin `split()`
   * down: leading whitespace is skipped, and a non-whitespace run ended by a
   * whitespace character is the next word, followed by the words of the rest.
   */
  lemma WordsCons(w: string, c: char, rest: string)
    requires w != [] && NoSpace(w) && IsSpace(c)
    ensures Words(w + [c] + rest) == [w] + Words(rest)
  {
    var s := w + [c] + rest;
    WordLengthOf(w, c, rest);
    assert s[0] == w[0];
    assert s[..|w|] == w;
    var tail := s[|w|..];
    assert tail == [c] + rest;
    assert tail[1..] == rest;
  }

  /** Leading whitespace produces no word. */
  lemma {:induction false} WordsLeadingSpace(sp: string, s: string)
    requires AllIn(sp, Whitespace)
    ensures Words(sp + s) == Words(s)
  {
    if sp != [] {
      var t := sp + s;
      assert t[0] == sp[0];
      assert t[1..] == sp[1..] + s;
      WordsLeadingSpace(sp[1..], s);
    } else {
      assert sp + s == s;
    }
  }

  /** A single run of non-whitespace characters is one word. */
  lemma WordsSingle(w: string)
    requires w != [] && NoSpace(w)
    ensures Words(w) == [w]
  {
    assert WordLength(w) == |w|;
    assert w[..|w|] == w && w[|w|..] == [];
  }

  /** A string that starts with a non-whitespace character has at least one word. */
  lemma WordsNonEmpty(s: string)
    requires s != [] && !IsSpace(s[0])
    ensures Words(s) != []
  {
  }

  // ---------------------------------------------------------------- numbers

  /** `t.isnumeric()`, restricted to ASCII digits. */
  predicate IsNumeric(t: string) { t != [] && forall k :: 0 <= k < |t| ==> IsDigit(t[k]) }

  function DigitValue(c: char): nat
    requires IsDigit(c)
  {
    c as int - '0' as int
  }

  /** The value of a string of decimal digits (0 for the empty string). */
  function DigitsValue(d: string): nat
    requires forall k :: 0 <= k < |d| ==> IsDigit(d[k])
  {
    if d == [] then 0 else DigitsValue(d[..|d| - 1]) * 10 + DigitValue(d[|d| - 1])
  }

  /**
   * Python's `int(s)` for ASCII input: surrounding whitespace is ignored, then an
   * optional sign and at least one decimal digit; anything else has no value
   * (Python raises ValueError).
   */
  function ParseInt(s: string): (r: Option<int>)
    ensures r.Some? ==> Strip(s, Whitespace) != []
  {
    ParseToken(Strip(s, Whitespace))
  }

  /** An optional sign followed by at least one decimal digit, and nothing else. */
  function ParseToken(t: string): (r: Option<int>)
    ensures r.Some? ==> t != []
  {
    if t != [] && (t[0] == '-' || t[0] == '+') then
      if IsNumeric(t[1..]) then
        var v: int := DigitsValue(t[1..]);
        Some(if t[0] == '-' then -v else v)
      else None
    else if IsNumeric(t) then Some(DigitsValue(t))
    else None
  }

  /** A string without surrounding whitespace is parsed as it stands. */
  lemma ParseClean(s: string)
    requires s != [] ==> !IsSpace(s[0]) && !IsSpace(s[|s| - 1])
    ensures ParseInt(s) == ParseToken(s)
  {
    StripClean(s, Whitespace);
  }

  /** The decimal digits of `n`, most significant first, without leading zeros. */
  function Decimal(n: nat): (d: string)
    ensures IsNumeric(d)
  {
    if n < 10 then ['0' + n as char]
    else Decimal(n / 10) + ['0' + (n % 10) as char]
  }

  lemma {:induction false} DigitsValueDecimal(n: nat)
    ensures DigitsValue(Decimal(n)) == n
  {
    if n >= 10 {
      var d := Decimal(n);
      assert d[..|d| - 1] == Decimal(n / 10);
      DigitsValueDecimal(n / 10);
    }
  }

  /** A numeric token parses to the value of its digits. */
  lemma ParseNumeric(t: string)
    requires IsNumeric(t)
    ensures ParseInt(t) == Some(DigitsValue(t))
  {
    ParseClean(t);
  }

  /** A minus sign before a numeric token negates its value. */
  lemma ParseNegative(t: string)
    requires IsNumeric(t)
    ensures ParseInt("-" + t) == Some(-(DigitsValue(t) as int))
  {
    var m := "-" + t;
    assert m[0] == '-' && m[|m| - 1] == t[|t| - 1];
    ParseClean(m);
    NegativeToken(t);
  }

  lemma NegativeToken(t: string)
    requires IsNumeric(t)
    ensures ParseToken("-" + t) == Some(-(DigitsValue(t) as int))
  {
    assert ("-" + t)[1..] == t;
  }

  /** `int` inverts the decimal rendering of a natural number. */
  lemma ParseIntDecimal(n: nat)
    ensures ParseInt(Decimal(n)) == Some(n)
  {
    var d := Decimal(n);
    DigitsValueDecimal(n);
    ParseNumeric(d);
  }
}
