// The few Python string operations the modelled code relies on, on `seq<char>`.
// Character classes are the ASCII ones (see README, "Left out").
module Text {
  import opened Wrappers

  /** Python's `str.isspace` restricted to ASCII. */
  predicate IsSpace(c: char) {
    c == ' ' || c == '\t' || c == '\n' || c == '\r' || c == '\U{000B}' || c == '\U{000C}'
    || ('\U{001C}' <= c <= '\U{001F}')
  }

  predicate IsDigit(c: char) {
    '0' <= c <= '9'
  }

  /** Python's `str.isdigit`: non-empty and every character a digit. */
  predicate IsDigits(s: string) {
    |s| > 0 && forall i :: 0 <= i < |s| ==> IsDigit(s[i])
  }

  predicate StartsWith(s: string, prefix: string) {
    |prefix| <= |s| && s[..|prefix|] == prefix
  }

  function LowerChar(c: char): char {
    if 'A' <= c <= 'Z' then (c as int + 32) as char else c
  }

  /** Python's `str.lower` on ASCII letters. */
  function Lower(s: string): (r: string)
    ensures |r| == |s|
    ensures forall i :: 0 <= i < |s| ==> r[i] == LowerChar(s[i])
  {
    seq(|s|, i requires 0 <= i < |s| => LowerChar(s[i]))
  }

  function TrimLeft(s: string): (r: string)
    ensures |r| <= |s| && r == s[|s| - |r|..]
    ensures r == [] || !IsSpace(r[0])
  {
    if s != [] && IsSpace(s[0]) then TrimLeft(s[1..]) else s
  }

  function TrimRight(s: string): (r: string)
    ensures |r| <= |s| && r == s[..|r|]
    ensures r == [] || !IsSpace(r[|r| - 1])
  {
    if s != [] && IsSpace(s[|s| - 1]) then TrimRight(s[..|s| - 1]) else s
  }

  /** Python's `str.strip()` with no argument. */
  function Strip(s: string): string {
    TrimRight(TrimLeft(s))
  }

  /** The maximal run of non-space characters at the front of `s`. */
  function FirstWord(s: string): (w: string)
    ensures |w| <= |s| && w == s[..|w|]
    ensures forall i :: 0 <= i < |w| ==> !IsSpace(w[i])
    ensures |w| < |s| ==> IsSpace(s[|w|])
  {
    if s == [] || IsSpace(s[0]) then [] else [s[0]] + FirstWord(s[1..])
  }

  /** Python's `str.split()` with no argument: the maximal runs of non-space characters. */
  function SplitWs(s: string): (r: seq<string>)
    decreases |s|
  {
    if s == [] then []
    else if IsSpace(s[0]) then SplitWs(s[1..])
    else
      var w := FirstWord(s);
      [w] + SplitWs(s[|w|..])
  }

  /** No word of `SplitWs` straddles the seam between `a` and `b`. */
  predicate SeamIsSpace(a: string, b: string) {
    a == [] || b == [] || IsSpace(a[|a| - 1]) || IsSpace(b[0])
  }

  lemma {:induction false} FirstWordAppend(a: string, b: string)
    requires a != [] && SeamIsSpace(a, b)
    ensures FirstWord(a + b) == FirstWord(a)
  {
    if !IsSpace(a[0]) {
      assert (a + b)[1..] == a[1..] + b;
      if a[1..] != [] {
        FirstWordAppend(a[1..], b);
      } else if b != [] {
        assert a[1..] + b == b;
      }
    }
  }

  /** Splitting on whitespace distributes over a concatenation whose seam is whitespace. */
  lemma {:induction false} SplitWsAppend(a: string, b: string)
    requires SeamIsSpace(a, b)
    ensures SplitWs(a + b) == SplitWs(a) + SplitWs(b)
    decreases |a|, 1
  {
    if a == [] {
      assert a + b == b;
    } else if IsSpace(a[0]) {
      SplitWsAppendSpace(a, b);
    } else {
      SplitWsAppendWord(a, b);
    }
  }

  lemma {:induction false} SplitWsAppendSpace(a: string, b: string)
    requires SeamIsSpace(a, b) && a != [] && IsSpace(a[0])
    ensures SplitWs(a + b) == SplitWs(a) + SplitWs(b)
    decreases |a|, 0
  {
    assert (a + b)[0] == a[0];
    assert (a + b)[1..] == a[1..] + b;
    assert SeamIsSpace(a[1..], b) by {
      if a[1..] != [] { assert a[1..][|a[1..]| - 1] == a[|a| - 1]; }
    }
    SplitWsAppend(a[1..], b);
  }

  lemma {:induction false} SplitWsAppendWord(a: string, b: string)
    requires SeamIsSpace(a, b) && a != [] && !IsSpace(a[0])
    ensures SplitWs(a + b) == SplitWs(a) + SplitWs(b)
    decreases |a|, 0
  {
    var rest := a[|FirstWord(a)|..];
    SplitWsFirstWord(a, b);
    SplitWsAppend(rest, b);
  }

  /** Both `a + b` and `a` split into the first word of `a` followed by the rest. */
  lemma SplitWsFirstWord(a: string, b: string)
    requires SeamIsSpace(a, b) && a != [] && !IsSpace(a[0])
    ensures SplitWs(a + b) == [FirstWord(a)] + SplitWs(a[|FirstWord(a)|..] + b)
    ensures SplitWs(a) == [FirstWord(a)] + SplitWs(a[|FirstWord(a)|..])
    ensures |a[|FirstWord(a)|..]| < |a| && SeamIsSpace(a[|FirstWord(a)|..], b)
  {
    var c := a + b;
    var w := FirstWord(a);
    var rest := a[|w|..];
    FirstWordAppend(a, b);
    assert c[0] == a[0];
    assert SplitWs(c) == [w] + SplitWs(c[|w|..]);
    assert c[|w|..] == rest + b;
    if rest != [] {
      assert rest[|rest| - 1] == a[|a| - 1];
    }
  }

  /** A run of non-space characters splits into itself. */
  lemma SplitWsWord(w: string)
    requires w != [] && forall i :: 0 <= i < |w| ==> !IsSpace(w[i])
    ensures SplitWs(w) == [w]
  {
    assert FirstWord(w) == w by {
      FirstWordWhole(w);
    }
    assert w[|w|..] == [];
  }

  lemma {:induction false} FirstWordWhole(w: string)
    requires forall i :: 0 <= i < |w| ==> !IsSpace(w[i])
    ensures FirstWord(w) == w
  {
    if w != [] {
      FirstWordWhole(w[1..]);
    }
  }

  /** Every piece of `SplitWs` is a non-empty run of non-space characters. */
  lemma {:induction false} SplitWsWords(s: string)
    ensures forall w :: w in SplitWs(s) ==> w != [] && forall i :: 0 <= i < |w| ==> !IsSpace(w[i])
    decreases |s|
  {
    if s != [] {
      if IsSpace(s[0]) {
        SplitWsWords(s[1..]);
      } else {
        SplitWsWords(s[|FirstWord(s)|..]);
      }
    }
  }

  lemma SplitWsSpaceCons(x: string)
    ensures SplitWs(" " + x) == SplitWs(x)
  {
    assert (" " + x)[1..] == x;
  }

  /** The first index at which `sep` occurs in `s`. */
  function IndexOf(s: string, sep: string): (r: Option<nat>)
    requires |sep| > 0
    ensures r.Some? ==> r.value + |sep| <= |s| && s[r.value..r.value + |sep|] == sep
  {
    if |s| < |sep| then None
    else if s[..|sep|] == sep then Some(0)
    else
      match IndexOf(s[1..], sep)
      case None => None
      case Some(k) =>
        assert s[k + 1..k + 1 + |sep|] == s[1..][k..k + |sep|];
        Some(k + 1)
  }

  predicate Contains(s: string, sep: string)
    requires |sep| > 0
  {
    IndexOf(s, sep).Some?
  }

  /** Python's `str.split(sep)` for a non-empty separator. */
  function SplitOn(s: string, sep: string): (r: seq<string>)
    requires |sep| > 0
    ensures |r| >= 1
    decreases |s|
  {
    match IndexOf(s, sep)
    case None => [s]
    case Some(k) => [s[..k]] + SplitOn(s[k + |sep|..], sep)
  }

  /** Python's `sep.join(parts)`. */
  function Join(sep: string, parts: seq<string>): string {
    if parts == [] then ""
    else if |parts| == 1 then parts[0]
    else parts[0] + sep + Join(sep, parts[1..])
  }

  /** Python's `<` on strings: lexicographic by code point. */
  predicate LexLess(a: string, b: string) {
    if a == [] then b != []
    else if b == [] then false
    else a[0] < b[0] || (a[0] == b[0] && LexLess(a[1..], b[1..]))
  }

  lemma {:induction false} LexLessIrreflexive(a: string)
    ensures !LexLess(a, a)
  {
    if a != [] {
      LexLessIrreflexive(a[1..]);
    }
  }

  lemma {:induction false} LexLessTransitive(a: string, b: string, c: string)
    requires LexLess(a, b) && LexLess(b, c)
    ensures LexLess(a, c)
  {
    if a != [] && b != [] && c != [] && a[0] == b[0] == c[0] {
      LexLessTransitive(a[1..], b[1..], c[1..]);
    }
  }

  lemma {:induction false} LexLessTotal(a: string, b: string)
    requires a != b
    ensures LexLess(a, b) || LexLess(b, a)
  {
    if a != [] && b != [] && a[0] == b[0] {
      assert a == [a[0]] + a[1..] && b == [b[0]] + b[1..];
      LexLessTotal(a[1..], b[1..]);
    }
  }

  predicate StrictlySorted(s: seq<string>) {
    forall i, j :: 0 <= i < j < |s| ==> LexLess(s[i], s[j])
  }

  /** Inserts a new string into a strictly sorted sequence at its place. */
  function InsertSorted(s: seq<string>, x: string): (r: seq<string>)
    requires StrictlySorted(s) && x !in s
    ensures StrictlySorted(r)
    ensures forall y :: y in r <==> y in s || y == x
    ensures |r| == |s| + 1
  {
    if s == [] then [x]
    else if LexLess(x, s[0]) then
      forall j | 0 <= j < |s| ensures LexLess(x, s[j]) {
        if j > 0 { LexLessTransitive(x, s[0], s[j]); }
      }
      [x] + s
    else
      LexLessTotal(x, s[0]);
      var rest := InsertSorted(s[1..], x);
      assert forall j :: 0 <= j < |rest| ==> rest[j] in s[1..] || rest[j] == x;
      [s[0]] + rest
  }

  function DigitChar(d: nat): (c: char)
    requires d < 10
    ensures IsDigit(c)
  {
    "0123456789"[d]
  }

  /** Python's `str(n)` for a natural number. */
  function NatToString(n: nat): (r: string)
    ensures IsDigits(r)
    ensures n >= 10 ==> |r| >= 2
  {
    if n < 10 then [DigitChar(n)] else NatToString(n / 10) + [DigitChar(n % 10)]
  }

  function DigitValue(c: char): nat {
    if '0' <= c <= '9' then (c as int - '0' as int) as nat else 0
  }

  /** Python's `int(s)` on a string of decimal digits. */
  function DigitsValue(s: string): nat {
    if s == [] then 0 else DigitsValue(s[..|s| - 1]) * 10 + DigitValue(s[|s| - 1])
  }

  /** Reading a rendered number back gives the number: `int(str(n)) == n`. */
  lemma {:induction false} DigitsValueOfNatToString(n: nat)
    ensures DigitsValue(NatToString(n)) == n
  {
    var s := NatToString(n);
    if n >= 10 {
      assert s[..|s| - 1] == NatToString(n / 10);
      DigitsValueOfNatToString(n / 10);
    }
  }
}
