/** Text helpers shared by every script of the experiment driver: Python's notion
    of whitespace, `str.strip()`, `str.split()` with and without a separator,
    `str.join`, prefix/suffix tests and decimal rendering/parsing of integers. */
module Text {

  datatype Option<+T> = None | Some(value: T)

  /** The characters Python's `str.isspace()` accepts. `str.strip()` and
      `str.split()` without an argument both cut on exactly this set. */
  predicate IsSpace(c: char) {
    || c == ' ' || c == '\t' || c == '\n' || c == '\r'
    || c == '\U{0B}' || c == '\U{0C}'
    || ('\U{1C}' <= c <= '\U{1F}')
    || c == '\U{85}' || c == '\U{A0}' || c == '\U{1680}'
    || ('\U{2000}' <= c <= '\U{200A}')
    || c == '\U{2028}' || c == '\U{2029}' || c == '\U{202F}' || c == '\U{205F}'
    || c == '\U{3000}'
  }

  predicate NoSpace(s: string) {
    forall k :: 0 <= k < |s| ==> !IsSpace(s[k])
  }

  predicate AllSpace(s: string) {
    forall k :: 0 <= k < |s| ==> IsSpace(s[k])
  }

  /** A string with no whitespace at either end: what `strip()` leaves behind. */
  predicate Stripped(s: string) {
    |s| == 0 || (!IsSpace(s[0]) && !IsSpace(s[|s| - 1]))
  }

  function TrimLeft(s: string): (r: string)
    ensures |r| <= |s| && r == s[|s| - |r|..]
    ensures AllSpace(s[..|s| - |r|])
    ensures |r| > 0 ==> !IsSpace(r[0])
  {
    if |s| > 0 && IsSpace(s[0]) then TrimLeft(s[1..]) else s
  }

  function TrimRight(s: string): (r: string)
    ensures |r| <= |s| && r == s[..|r|]
    ensures AllSpace(s[|r|..])
    ensures |r| > 0 ==> !IsSpace(r[|r| - 1])
  {
    if |s| > 0 && IsSpace(s[|s| - 1]) then TrimRight(s[..|s| - 1]) else s
  }

  /** `r` is a slice of `s` with nothing but whitespace around it. */
  predicate TrimOf(s: string, r: string) {
    exists i :: 0 <= i <= |s| - |r| && r == s[i..i + |r|]
      && AllSpace(s[..i]) && AllSpace(s[i + |r|..])
  }

  /** Python's `s.strip()`: the slice of `s` left after removing whitespace at both ends. */
  function Strip(s: string): (r: string)
    ensures Stripped(r)
  {
    var t := TrimLeft(s);
    var r := TrimRight(t);
    TrimBoth(s, t, r);
    r
  }

  /** `strip()` cuts away whitespace only, and all of it at both ends. */
  lemma StripTrims(s: string)
    ensures Stripped(Strip(s)) && TrimOf(s, Strip(s))
  {
    TrimBoth(s, TrimLeft(s), TrimRight(TrimLeft(s)));
  }

  /** Trimming the left and then the right end keeps one contiguous slice. */
  lemma TrimBoth(s: string, t: string, r: string)
    requires |t| <= |s| && t == s[|s| - |t|..] && AllSpace(s[..|s| - |t|])
    requires |t| > 0 ==> !IsSpace(t[0])
    requires |r| <= |t| && r == t[..|r|] && AllSpace(t[|r|..])
    requires |r| > 0 ==> !IsSpace(r[|r| - 1])
    ensures Stripped(r) && TrimOf(s, r)
  {
    var i := |s| - |t|;
    SliceOfSuffix(s, i, |r|);
    if |r| > 0 {
      assert r[0] == t[0];
    }
    assert r == s[i..i + |r|] && AllSpace(s[..i]) && AllSpace(s[i + |r|..]);
  }

  /** Slicing a suffix is slicing the whole sequence further on. */
  lemma SliceOfSuffix<T>(s: seq<T>, i: nat, n: nat)
    requires i + n <= |s|
    ensures s[i..][..n] == s[i..i + n] && s[i..][n..] == s[i + n..]
  {
  }

  /** A range of a suffix is the same range of the whole sequence, shifted. */
  lemma SliceOfSuffixRange<T>(s: seq<T>, i: nat, a: nat, b: nat)
    requires a <= b && i + b <= |s|
    ensures s[i..][a..b] == s[i + a..i + b]
  {
  }

  /** `strip()` keeps the slice that starts after the leading whitespace. */
  lemma StripIsSlice(s: string)
    ensures |s| - |TrimLeft(s)| + |Strip(s)| <= |s|
    ensures Strip(s) == s[|s| - |TrimLeft(s)|..|s| - |TrimLeft(s)| + |Strip(s)|]
  {
    var t := TrimLeft(s);
    SliceOfSuffix(s, |s| - |t|, |TrimRight(t)|);
  }

  lemma StripStripped(s: string)
    requires Stripped(s)
    ensures Strip(s) == s
  {
  }

  /** The longest prefix of `s` holding no whitespace. */
  function TakeWord(s: string): (w: string)
    ensures |w| <= |s| && w == s[..|w|]
    ensures NoSpace(w)
    ensures |w| < |s| ==> IsSpace(s[|w|])
  {
    if |s| == 0 || IsSpace(s[0]) then [] else [s[0]] + TakeWord(s[1..])
  }

  /** `s.split()[0]`: the first whitespace-delimited word, or None where Python
      raises IndexError because `s` is blank. */
  function FirstWord(s: string): (r: Option<string>)
    ensures r.None? <==> AllSpace(s)
    ensures r.Some? ==> |r.value| > 0 && NoSpace(r.value)
  {
    var t := TrimLeft(s);
    if |t| == 0 then None else Some(TakeWord(t))
  }

  /** The first word is framed by whitespace (or the ends of the text) on both sides. */
  ghost predicate IsFirstWordOf(w: string, s: string) {
    exists i :: 0 <= i && i + |w| <= |s| && AllSpace(s[..i]) && s[i..i + |w|] == w
      && (i + |w| == |s| || IsSpace(s[i + |w|]))
  }

  lemma FirstWordFramed(s: string)
    requires FirstWord(s).Some?
    ensures |FirstWord(s).value| > 0 && NoSpace(FirstWord(s).value)
    ensures IsFirstWordOf(FirstWord(s).value, s)
  {
    var t := TrimLeft(s);
    var w := TakeWord(t);
    var i := |s| - |t|;
    assert s[i..i + |w|] == w;
  }

  /** Stripping first does not change which word comes first: `s.strip().split()[0]`
      and `s.split()[0]` agree. */
  lemma {:induction false} FirstWordOfStrip(s: string)
    ensures FirstWord(Strip(s)) == FirstWord(s)
  {
    var t := TrimLeft(s);
    var r := TrimRight(t);
    if |t| == 0 {
      assert r == [];
    } else {
      assert r[0] == t[0];
      TrimLeftOfNonSpace(r);
      TakeWordOfPrefix(t, |r|);
    }
  }

  lemma TrimLeftOfNonSpace(s: string)
    requires |s| > 0 && !IsSpace(s[0])
    ensures TrimLeft(s) == s
  {
  }

  /** Cutting trailing text after the last non-space character keeps the first word. */
  lemma {:induction false} TakeWordOfPrefix(t: string, n: nat)
    requires 0 < n <= |t| && !IsSpace(t[n - 1])
    requires AllSpace(t[n..])
    ensures TakeWord(t[..n]) == TakeWord(t)
    decreases n
  {
    if IsSpace(t[0]) {
    } else if n == 1 {
      assert t[..n] == [t[0]];
      if |t| > 1 {
        assert t[1] == t[n..][0];
      }
    } else {
      assert t[..n][1..] == t[1..][..n - 1];
      assert t[1..][n - 1..] == t[n..];
      TakeWordOfPrefix(t[1..], n - 1);
    }
  }

  predicate StartsWith(s: string, p: string) {
    |p| <= |s| && s[..|p|] == p
  }

  predicate EndsWith(s: string, p: string) {
    |p| <= |s| && s[|s| - |p|..] == p
  }

  /** Python's `s.split(c)` for a one-character separator: always at least one
      field, and no field contains the separator. */
  function Split(s: string, c: char): (r: seq<string>)
    ensures |r| >= 1
    ensures forall k :: 0 <= k < |r| ==> c !in r[k]
  {
    if |s| == 0 then [""]
    else
      var rest := Split(s[1..], c);
      if s[0] == c then [""] + rest
      else [[s[0]] + rest[0]] + rest[1..]
  }

  /** Python's `c.join(fields)`. */
  function Join(fields: seq<string>, c: char): string
    requires |fields| >= 1
  {
    if |fields| == 1 then fields[0] else fields[0] + [c] + Join(fields[1..], c)
  }

  /** Joining two non-empty lists puts one separator between their joins. */
  lemma {:induction false} JoinAppend(a: seq<string>, b: seq<string>, c: char)
    requires |a| >= 1 && |b| >= 1
    ensures Join(a + b, c) == Join(a, c) + [c] + Join(b, c)
  {
    if |a| > 1 {
      JoinAppend(a[1..], b, c);
      assert (a + b)[1..] == a[1..] + b;
    } else {
      assert (a + b)[1..] == b;
    }
  }

  /** A character found in no field, and not the separator, is not in the join. */
  lemma {:induction false} JoinHasNo(fields: seq<string>, sep: char, x: char)
    requires |fields| >= 1 && x != sep
    requires forall k :: 0 <= k < |fields| ==> x !in fields[k]
    ensures x !in Join(fields, sep)
  {
    if |fields| > 1 {
      JoinHasNo(fields[1..], sep, x);
    }
  }

  /** Splitting a joined list gives the list back when no field holds the separator. */
  lemma {:induction false} SplitJoin(fields: seq<string>, c: char)
    requires |fields| >= 1
    requires forall k :: 0 <= k < |fields| ==> c !in fields[k]
    ensures Split(Join(fields, c), c) == fields
  {
    if |fields| == 1 {
      SplitNoSep(fields[0], c);
    } else {
      SplitJoin(fields[1..], c);
      SplitConcat(fields[0], Join(fields[1..], c), c);
      SplitNoSep(fields[0], c);
      assert fields == [fields[0]] + fields[1..];
    }
  }

  lemma {:induction false} SplitNoSep(s: string, c: char)
    requires c !in s
    ensures Split(s, c) == [s]
  {
    if |s| > 0 {
      SplitNoSep(s[1..], c);
      assert [s[0]] + s[1..] == s;
    }
  }

  /** Joining the fields of a split gives the text back. */
  lemma {:induction false} JoinSplit(s: string, c: char)
    ensures Join(Split(s, c), c) == s
  {
    if |s| > 0 {
      JoinSplit(s[1..], c);
      var rest := Split(s[1..], c);
      if s[0] == c {
        assert Split(s, c)[1..] == rest;
      } else if |rest| == 1 {
        assert [s[0]] + s[1..] == s;
      } else {
        var r := Split(s, c);
        assert r[1..] == rest[1..];
        assert Join(r, c) == [s[0]] + rest[0] + [c] + Join(rest[1..], c);
        assert Join(rest, c) == rest[0] + [c] + Join(rest[1..], c);
        assert [s[0]] + s[1..] == s;
      }
    }
  }

  /** The fields of `a + c + b` are those of `a` followed by those of `b`. */
  lemma {:induction false} SplitConcat(a: string, b: string, c: char)
    ensures Split(a + [c] + b, c) == Split(a, c) + Split(b, c)
  {
    if |a| == 0 {
      assert a + [c] + b == [c] + b;
      assert ([c] + b)[1..] == b;
    } else {
      assert (a + [c] + b)[1..] == a[1..] + [c] + b;
      SplitConcat(a[1..], b, c);
    }
  }

  /** Decimal digits, as Python's `str(n)` renders a non-negative integer. */
  predicate IsDigit(ch: char) {
    '0' <= ch <= '9'
  }

  predicate AllDigits(s: string) {
    forall k :: 0 <= k < |s| ==> IsDigit(s[k])
  }

  function DigitChar(d: nat): char
    requires d < 10
  {
    ('0' as int + d) as char
  }

  function DigitValue(ch: char): nat
    requires IsDigit(ch)
  {
    (ch as int - '0' as int) as nat
  }

  /** `str(n)` for a non-negative integer: no leading zeros, only digits. */
  function NatToString(n: nat): (s: string)
    ensures |s| >= 1 && AllDigits(s)
    ensures |s| > 1 ==> s[0] != '0'
    decreases n
  {
    if n < 10 then [DigitChar(n)] else NatToString(n / 10) + [DigitChar(n % 10)]
  }

  /** The value of a non-empty run of decimal digits, most significant first. */
  function DigitsValue(s: string): nat
    requires AllDigits(s)
  {
    if |s| == 0 then 0 else DigitsValue(s[..|s| - 1]) * 10 + DigitValue(s[|s| - 1])
  }

  /** Python's `int(s)` restricted to plain digit strings: the other spellings
      Python accepts (signs, underscores, surrounding blanks) are not modelled,
      and everything else fails as with ValueError. */
  function ParseNat(s: string): (r: Option<nat>)
    ensures r.Some? <==> |s| > 0 && AllDigits(s)
  {
    if |s| > 0 && AllDigits(s) then Some(DigitsValue(s)) else None
  }

  /** Parsing a rendered number gives the number back. */
  lemma {:induction false} ParseNatToString(n: nat)
    ensures ParseNat(NatToString(n)) == Some(n)
    decreases n
  {
    var s := NatToString(n);
    if n < 10 {
      assert s[..|s| - 1] == [];
      assert DigitsValue(s) == DigitsValue([]) * 10 + DigitValue(s[0]);
      assert DigitValue(DigitChar(n)) == n;
    } else {
      ParseNatToString(n / 10);
      assert s[..|s| - 1] == NatToString(n / 10);
      assert DigitValue(DigitChar(n % 10)) == n % 10;
    }
  }

  lemma NatToStringInjective(a: nat, b: nat)
    requires NatToString(a) == NatToString(b)
    ensures a == b
  {
    ParseNatToString(a);
    ParseNatToString(b);
  }

  lemma NatToStringHasNo(n: nat, c: char)
    requires !IsDigit(c)
    ensures c !in NatToString(n)
  {
  }

  /** The digits of a number followed by a non-digit determine the number: two
      texts that each start with a rendered number and continue with a non-digit
      agree on the number and on the rest. */
  lemma NatPrefixCancel(a: nat, b: nat, s: string, t: string)
    requires |s| > 0 && |t| > 0 && !IsDigit(s[0]) && !IsDigit(t[0])
    requires NatToString(a) + s == NatToString(b) + t
    ensures a == b && s == t
  {
    var x, y := NatToString(a), NatToString(b);
    DigitRun(x, s);
    DigitRun(y, t);
    assert x == (x + s)[..|x|] == (y + t)[..|y|] == y;
    NatToStringInjective(a, b);
    assert s == (x + s)[|x|..] == (y + t)[|y|..] == t;
  }

  /** In `x + s` the leading run of digits is exactly `x`. */
  lemma DigitRun(x: string, s: string)
    requires AllDigits(x) && |s| > 0 && !IsDigit(s[0])
    ensures forall k :: 0 <= k < |x| ==> IsDigit((x + s)[k])
    ensures !IsDigit((x + s)[|x|])
  {
  }

  /** `pat` occurs in `s` at index `k`. */
  predicate At(s: string, pat: string, k: int) {
    0 <= k && k + |pat| <= |s| && s[k..k + |pat|] == pat
  }

  /** Python's `pat in s`. */
  predicate Occurs(s: string, pat: string) {
    exists k :: 0 <= k <= |s| && At(s, pat, k)
  }

  /** The first occurrence of `pat` in `s` at or after `k`. */
  function IndexFrom(s: string, pat: string, k: nat): (r: Option<nat>)
    requires k <= |s|
    ensures r.Some? ==> k <= r.value && At(s, pat, r.value)
    ensures r.Some? ==> forall j :: k <= j < r.value ==> !At(s, pat, j)
    ensures r.None? ==> forall j :: k <= j ==> !At(s, pat, j)
    decreases |s| - k
  {
    if k + |pat| > |s| then None
    else if s[k..k + |pat|] == pat then Some(k)
    else IndexFrom(s, pat, k + 1)
  }

  /** Python's `s.find(pat)`, with None for -1. */
  function IndexOf(s: string, pat: string): (r: Option<nat>)
    ensures r.None? <==> !Occurs(s, pat)
    ensures r.Some? ==> At(s, pat, r.value) && forall j :: 0 <= j < r.value ==> !At(s, pat, j)
  {
    IndexFrom(s, pat, 0)
  }
}
