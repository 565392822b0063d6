/** The parts of Python's `str` behaviour the core relies on: ordering and
    sorting of strings, `split`/`join`/`replace`, `strip`, case mapping of
    ASCII letters, `int()` of a decimal literal and zero-padded formatting. */
module Text {
  import opened Wrappers
  import opened Seqs

  // ---------------------------------------------------------------------
  // Ordering: Python compares strings code point by code point, and a
  // proper prefix comes first.
  // ---------------------------------------------------------------------

  predicate LexLe(a: string, b: string)
    decreases |a|
  {
    |a| == 0 || (|b| > 0 && (a[0] < b[0] || (a[0] == b[0] && LexLe(a[1..], b[1..]))))
  }

  lemma {:induction false} LexLeRefl(a: string)
    ensures LexLe(a, a)
    decreases |a|
  {
    if |a| > 0 {
      LexLeRefl(a[1..]);
    }
  }

  lemma {:induction false} LexLeTotal(a: string, b: string)
    ensures LexLe(a, b) || LexLe(b, a)
    decreases |a|
  {
    if |a| > 0 && |b| > 0 && a[0] == b[0] {
      LexLeTotal(a[1..], b[1..]);
    }
  }

  lemma {:induction false} LexLeAntisym(a: string, b: string)
    requires LexLe(a, b) && LexLe(b, a)
    ensures a == b
    decreases |a|
  {
    if |a| > 0 && |b| > 0 {
      LexLeAntisym(a[1..], b[1..]);
      assert a == [a[0]] + a[1..] && b == [b[0]] + b[1..];
    }
  }

  lemma {:induction false} LexLeTrans(a: string, b: string, c: string)
    requires LexLe(a, b) && LexLe(b, c)
    ensures LexLe(a, c)
    decreases |a|
  {
    if |a| > 0 && |b| > 0 && |c| > 0 && a[0] == b[0] && b[0] == c[0] {
      LexLeTrans(a[1..], b[1..], c[1..]);
    }
  }

  ghost predicate Sorted(s: seq<string>) {
    forall i, j :: 0 <= i < j < |s| ==> LexLe(s[i], s[j])
  }

  // ---------------------------------------------------------------------
  // sorted(): insertion sort, equal to Python's result because equal
  // strings are identical.
  // ---------------------------------------------------------------------

  function Insert(s: seq<string>, x: string): (r: seq<string>)
    ensures multiset(r) == multiset(s) + multiset{x}
  {
    if s == [] then [x]
    else if LexLe(x, s[0]) then [x] + s
    else
      assert s == [s[0]] + s[1..];
      [s[0]] + Insert(s[1..], x)
  }

  lemma {:induction false} InsertSorted(s: seq<string>, x: string)
    requires Sorted(s)
    ensures Sorted(Insert(s, x))
  {
    if s == [] {
    } else if LexLe(x, s[0]) {
      forall j | 0 < j < |s| ensures LexLe(x, s[j]) {
        LexLeTrans(x, s[0], s[j]);
      }
    } else {
      InsertSorted(s[1..], x);
      var r := Insert(s[1..], x);
      LexLeTotal(x, s[0]);
      forall k | 0 <= k < |r| ensures LexLe(s[0], r[k]) {
        assert r[k] in multiset(r);
        if r[k] != x {
          assert r[k] in multiset(s[1..]);
          assert r[k] in s[1..];
        }
      }
    }
  }

  function Sort(s: seq<string>): (r: seq<string>)
    ensures multiset(r) == multiset(s)
  {
    if s == [] then []
    else
      assert s == s[..|s| - 1] + [s[|s| - 1]];
      Insert(Sort(s[..|s| - 1]), s[|s| - 1])
  }

  lemma {:induction false} SortSorted(s: seq<string>)
    ensures Sorted(Sort(s))
  {
    if s != [] {
      SortSorted(s[..|s| - 1]);
      InsertSorted(Sort(s[..|s| - 1]), s[|s| - 1]);
    }
  }

  lemma {:induction false} InsertAtEnd(s: seq<string>, x: string)
    requires Sorted(s)
    requires forall y :: y in s ==> LexLe(y, x)
    ensures Insert(s, x) == s + [x]
  {
    if s != [] {
      if LexLe(x, s[0]) {
        LexLeAntisym(x, s[0]);
        forall j | 0 <= j < |s| ensures s[j] == x {
          LexLeAntisym(s[j], x);
        }
        assert [x] + s == s + [x];
      } else {
        InsertAtEnd(s[1..], x);
        assert s == [s[0]] + s[1..];
      }
    }
  }

  lemma {:induction false} SortOfSorted(s: seq<string>)
    requires Sorted(s)
    ensures Sort(s) == s
  {
    if s != [] {
      var n := |s| - 1;
      SortedPrefix(s, s[..n]);
      SortOfSorted(s[..n]);
      InsertAtEnd(s[..n], s[n]);
      assert s[..n] + [s[n]] == s;
    }
  }

  /** Dropping the last element of a sorted list leaves a sorted list, all
      of whose elements are at most the one dropped. */
  lemma SortedPrefix(s: seq<string>, p: seq<string>)
    requires Sorted(s) && s != [] && p == s[..|s| - 1]
    ensures Sorted(p)
    ensures forall y :: y in p ==> LexLe(y, s[|s| - 1])
  {
    assert forall k :: 0 <= k < |p| ==> p[k] == s[k];
    forall y | y in p ensures LexLe(y, s[|s| - 1]) {
      var k :| 0 <= k < |p| && p[k] == y;
      assert p[k] == s[k];
    }
  }

  /** Python's `sorted(set(...))` and the cutoff bookkeeping: sorting a list
      without repeats gives a sorted list without repeats. */
  lemma SortDistinct(s: seq<string>)
    requires Distinct(s)
    ensures Sorted(Sort(s)) && Distinct(Sort(s))
  {
    SortSorted(s);
    forall x ensures multiset(Sort(s))[x] <= 1 {
      DistinctMultiplicity(s, x);
    }
    MultiplicityDistinct(Sort(s));
  }

  // ---------------------------------------------------------------------
  // min() and max() of a non-empty list of strings
  // ---------------------------------------------------------------------

  function MinOf(s: seq<string>): (r: string)
    requires |s| > 0
    ensures r in s
  {
    if |s| == 1 then s[0]
    else
      var m := MinOf(s[1..]);
      if LexLe(m, s[0]) && m != s[0] then m else s[0]
  }

  function MaxOf(s: seq<string>): (r: string)
    requires |s| > 0
    ensures r in s
  {
    if |s| == 1 then s[0]
    else
      var m := MaxOf(s[1..]);
      if LexLe(s[0], m) && m != s[0] then m else s[0]
  }

  lemma {:induction false} MinOfIsLeast(s: seq<string>)
    requires |s| > 0
    ensures forall y :: y in s ==> LexLe(MinOf(s), y)
  {
    if |s| == 1 {
      LexLeRefl(s[0]);
    } else {
      MinOfIsLeast(s[1..]);
      var m := MinOf(s[1..]);
      LexLeTotal(m, s[0]);
      LexLeRefl(s[0]);
      forall y | y in s ensures LexLe(MinOf(s), y) {
        if y != s[0] {
          assert y in s[1..];
          if MinOf(s) == s[0] {
            LexLeTrans(s[0], m, y);
          }
        }
      }
    }
  }

  lemma {:induction false} MaxOfIsGreatest(s: seq<string>)
    requires |s| > 0
    ensures forall y :: y in s ==> LexLe(y, MaxOf(s))
  {
    if |s| == 1 {
      LexLeRefl(s[0]);
    } else {
      MaxOfIsGreatest(s[1..]);
      var m := MaxOf(s[1..]);
      LexLeTotal(m, s[0]);
      LexLeRefl(s[0]);
      forall y | y in s ensures LexLe(y, MaxOf(s)) {
        if y != s[0] {
          assert y in s[1..];
          if MaxOf(s) == s[0] {
            LexLeTrans(y, m, s[0]);
          }
        }
      }
    }
  }

  // ---------------------------------------------------------------------
  // find / split / join / replace
  // ---------------------------------------------------------------------

  predicate IsAt(s: string, sub: string, i: nat) {
    i + |sub| <= |s| && s[i..i + |sub|] == sub
  }

  function FindFrom(s: string, sub: string, i: nat): (r: Option<nat>)
    requires i <= |s|
    ensures r.Some? ==> i <= r.value <= |s| && IsAt(s, sub, r.value)
    ensures r.Some? ==> forall k :: i <= k < r.value ==> !IsAt(s, sub, k)
    ensures r.None? ==> forall k :: i <= k <= |s| ==> !IsAt(s, sub, k)
    decreases |s| - i
  {
    if IsAt(s, sub, i) then Some(i)
    else if i == |s| then None
    else FindFrom(s, sub, i + 1)
  }

  /** Python's `s.find(sub)`, as an option. */
  function Find(s: string, sub: string): Option<nat> {
    FindFrom(s, sub, 0)
  }

  /** Python's `sub in s`. */
  predicate Contains(s: string, sub: string) {
    Find(s, sub).Some?
  }

  lemma ContainsAt(s: string, sub: string, i: nat)
    requires IsAt(s, sub, i)
    ensures Contains(s, sub)
  {
  }

  predicate StartsWith(s: string, p: string) {
    |p| <= |s| && s[..|p|] == p
  }

  predicate EndsWith(s: string, p: string) {
    |p| <= |s| && s[|s| - |p|..] == p
  }

  /** Python's `s.split(sep)` for a non-empty separator. */
  function Split(s: string, sep: string): (parts: seq<string>)
    requires |sep| > 0
    ensures |parts| >= 1
    decreases |s|
  {
    match Find(s, sep)
    case None => [s]
    case Some(i) => [s[..i]] + Split(s[i + |sep|..], sep)
  }

  /** Python's `sep.join(parts)`. */
  function Join(parts: seq<string>, sep: string): string {
    if |parts| == 0 then ""
    else if |parts| == 1 then parts[0]
    else parts[0] + sep + Join(parts[1..], sep)
  }

  lemma JoinCons(p: string, rest: seq<string>, sep: string)
    requires |rest| >= 1
    ensures Join([p] + rest, sep) == p + sep + Join(rest, sep)
  {
    assert ([p] + rest)[1..] == rest;
  }

  lemma {:induction false} JoinSplit(s: string, sep: string)
    requires |sep| > 0
    ensures Join(Split(s, sep), sep) == s
    decreases |s|
  {
    var f := Find(s, sep);
    if f.Some? {
      var i := f.value;
      var rest := s[i + |sep|..];
      var tail := Split(rest, sep);
      assert Split(s, sep) == [s[..i]] + tail;
      JoinSplit(rest, sep);
      JoinCons(s[..i], tail, sep);
      assert s[i..i + |sep|] == sep;
      assert s == s[..i] + s[i..i + |sep|] + rest;
    }
  }

  /** No piece returned by `split` contains the separator. */
  lemma {:induction false} SplitPiecesFree(s: string, sep: string)
    requires |sep| > 0
    ensures forall p :: p in Split(s, sep) ==> !Contains(p, sep)
    decreases |s|
  {
    match Find(s, sep)
    case None =>
    case Some(i) =>
      SplitPiecesFree(s[i + |sep|..], sep);
      var head := s[..i];
      forall k | 0 <= k <= |head| ensures !IsAt(head, sep, k) {
        if k + |sep| <= |head| {
          assert head[k..k + |sep|] == s[k..k + |sep|];
          assert !IsAt(s, sep, k);
        }
      }
  }

  /** A string none of whose characters can start the separator is one piece. */
  lemma SplitNoSep(a: string, sep: string)
    requires |sep| > 0 && forall k :: 0 <= k < |a| ==> a[k] != sep[0]
    ensures Split(a, sep) == [a]
  {
    assert forall k :: 0 <= k <= |a| ==> !IsAt(a, sep, k);
  }

  /** Splitting at the first separator when the head cannot hold one. */
  /** `c not in t`. */
  predicate Lacks(t: string, c: char) {
    forall k :: 0 <= k < |t| ==> t[k] != c
  }

  /** Three pieces free of a one-character separator, joined by it, split
      back apart. */
  lemma SplitThreeBy(a: string, b: string, c: string, ch: char)
    requires Lacks(a, ch) && Lacks(b, ch) && Lacks(c, ch)
    ensures Split(a + [ch] + b + [ch] + c, [ch]) == [a, b, c]
  {
    var sep := [ch];
    var tail := b + sep + c;
    assert a + sep + b + sep + c == a + sep + tail;
    SplitHead(a, sep, tail);
    SplitHead(b, sep, c);
    SplitNoSep(c, sep);
    assert Split(tail, sep) == [b, c];
  }

  lemma SplitHead(a: string, sep: string, b: string)
    requires |sep| > 0 && forall k :: 0 <= k < |a| ==> a[k] != sep[0]
    ensures Split(a + sep + b, sep) == [a] + Split(b, sep)
  {
    var s := a + sep + b;
    assert s[|a|..|a| + |sep|] == sep;
    assert IsAt(s, sep, |a|);
    forall k | 0 <= k < |a| ensures !IsAt(s, sep, k) {
      assert s[k] == a[k];
    }
    assert Find(s, sep) == Some(|a|);
    assert s[..|a|] == a;
    assert s[|a| + |sep|..] == b;
  }

  /** Joining with one more part appends the separator and that part. */
  lemma {:induction false} JoinSnoc(parts: seq<string>, sep: string)
    requires |parts| >= 2
    ensures Join(parts, sep) == Join(parts[..|parts| - 1], sep) + sep + parts[|parts| - 1]
    decreases |parts|
  {
    if |parts| > 2 {
      JoinSnoc(parts[1..], sep);
      assert parts[1..][..|parts| - 2] == parts[..|parts| - 1][1..];
    }
  }

  /** A string holding the separator splits into at least two pieces. */
  lemma SplitFound(s: string, sep: string)
    requires |sep| > 0 && Contains(s, sep)
    ensures |Split(s, sep)| >= 2
  {
  }

  /** A string without the separator is one piece. */
  lemma SplitNotFound(s: string, sep: string)
    requires |sep| > 0 && !Contains(s, sep)
    ensures Split(s, sep) == [s]
  {
  }

  /** `s.split(sep)[-1]` holds no separator. */
  lemma LastPieceFree(s: string, sep: string)
    requires |sep| > 0
    ensures !Contains(Split(s, sep)[|Split(s, sep)| - 1], sep)
  {
    SplitPiecesFree(s, sep);
    assert Split(s, sep)[|Split(s, sep)| - 1] in Split(s, sep);
  }

  lemma EndsWithSuffix(a: string, b: string)
    ensures EndsWith(a + b, b)
  {
    assert (a + b)[|a + b| - |b|..] == b;
  }

  lemma JoinEndsWithLast(parts: seq<string>, sep: string)
    requires |parts| >= 2
    ensures EndsWith(Join(parts, sep), sep + parts[|parts| - 1])
  {
    JoinSnoc(parts, sep);
    var init := Join(parts[..|parts| - 1], sep);
    assert init + sep + parts[|parts| - 1] == init + (sep + parts[|parts| - 1]);
    EndsWithSuffix(init, sep + parts[|parts| - 1]);
  }

  /** When the separator occurs, `s.split(sep)[-1]` is the text after its
      last occurrence. */
  lemma LastPieceEnds(s: string, sep: string)
    requires |sep| > 0 && Contains(s, sep)
    ensures EndsWith(s, sep + Split(s, sep)[|Split(s, sep)| - 1])
  {
    SplitFound(s, sep);
    JoinSplit(s, sep);
    JoinEndsWithLast(Split(s, sep), sep);
  }

  /** Replacing in a string that starts with the target replaces that
      occurrence first. */
  lemma ReplaceFront(s: string, target: string, replacement: string)
    requires |target| > 0 && StartsWith(s, target)
    ensures Replace(s, target, replacement) == replacement + Replace(s[|target|..], target, replacement)
  {
    assert IsAt(s, target, 0);
    assert Split(s, target) == [""] + Split(s[|target|..], target);
    JoinCons("", Split(s[|target|..], target), replacement);
  }

  /** Python's `s.replace(target, replacement)` for a non-empty target. */
  function Replace(s: string, target: string, replacement: string): string
    requires |target| > 0
  {
    Join(Split(s, target), replacement)
  }

  // ---------------------------------------------------------------------
  // Whitespace and strip
  // ---------------------------------------------------------------------

  /** Python's `str.isspace` for one character (the same set `\s` matches). */
  predicate IsSpace(c: char) {
    c == ' ' || c == '\t' || c == '\n' || c == '\r' || c == '\U{000B}' || c == '\U{000C}'
    || ('\U{001C}' <= c <= '\U{001F}') || c == '\U{0085}' || c == '\U{00A0}' || c == '\U{1680}'
    || ('\U{2000}' <= c <= '\U{200A}') || c == '\U{2028}' || c == '\U{2029}' || c == '\U{202F}'
    || c == '\U{205F}' || c == '\U{3000}'
  }

  function LStrip(s: string): (r: string)
    ensures |r| <= |s| && r == s[|s| - |r|..]
    ensures r == [] || !IsSpace(r[0])
  {
    if s != [] && IsSpace(s[0]) then LStrip(s[1..]) else s
  }

  function RStrip(s: string): (r: string)
    ensures |r| <= |s| && r == s[..|r|]
    ensures r == [] || !IsSpace(r[|r| - 1])
  {
    if s != [] && IsSpace(s[|s| - 1]) then RStrip(s[..|s| - 1]) else s
  }

  /** Python's `s.strip()`. */
  function Strip(s: string): (r: string)
    ensures r == [] || (!IsSpace(r[0]) && !IsSpace(r[|r| - 1]))
  {
    RStrip(LStrip(s))
  }

  /** Python's `s.rstrip(c)` for one character. */
  function RStripChar(s: string, c: char): (r: string)
    ensures |r| <= |s| && r == s[..|r|]
    ensures r == [] || r[|r| - 1] != c
  {
    if s != [] && s[|s| - 1] == c then RStripChar(s[..|s| - 1], c) else s
  }

  function LStripChar(s: string, c: char): (r: string)
    ensures |r| <= |s| && r == s[|s| - |r|..]
    ensures r == [] || r[0] != c
  {
    if s != [] && s[0] == c then LStripChar(s[1..], c) else s
  }

  /** Python's `s.strip(c)` for one character. */
  function StripChar(s: string, c: char): (r: string)
    ensures r == [] || (r[0] != c && r[|r| - 1] != c)
  {
    var l := LStripChar(s, c);
    var r := RStripChar(l, c);
    assert r == [] || r[0] == l[0];
    r
  }

  // ---------------------------------------------------------------------
  // Case mapping (ASCII letters; see README)
  // ---------------------------------------------------------------------

  function LowerChar(c: char): char {
    if 'A' <= c <= 'Z' then (c as int + 32) as char else c
  }

  function UpperChar(c: char): char {
    if 'a' <= c <= 'z' then (c as int - 32) as char else c
  }

  function Lower(s: string): (r: string)
    ensures |r| == |s| && forall i :: 0 <= i < |s| ==> r[i] == LowerChar(s[i])
  {
    seq(|s|, i requires 0 <= i < |s| => LowerChar(s[i]))
  }

  lemma CaseIdempotent(c: char)
    ensures UpperChar(UpperChar(c)) == UpperChar(c) && LowerChar(LowerChar(c)) == LowerChar(c)
    ensures LowerChar(UpperChar(c)) == LowerChar(c) && UpperChar(LowerChar(c)) == UpperChar(c)
  {
  }

  /** Python's `w.capitalize()`: first character upper-cased, the rest lower-cased. */
  function Capitalize(w: string): (r: string)
    ensures |r| == |w|
    ensures |w| > 0 ==> r[0] == UpperChar(w[0])
    ensures forall i :: 0 < i < |w| ==> r[i] == LowerChar(w[i])
  {
    if w == [] then [] else [UpperChar(w[0])] + Lower(w[1..])
  }

  // ---------------------------------------------------------------------
  // Decimal digits: int() and zero-padded formatting
  // ---------------------------------------------------------------------

  predicate IsDigit(c: char) {
    '0' <= c <= '9'
  }

  predicate AllDigits(s: string) {
    forall i :: 0 <= i < |s| ==> IsDigit(s[i])
  }

  function DigitValue(c: char): nat
    requires IsDigit(c)
  {
    c as int - '0' as int
  }

  function DigitChar(d: nat): (c: char)
    requires d < 10
    ensures IsDigit(c) && DigitValue(c) == d
  {
    ('0' as int + d) as char
  }

  /** The value of a string of decimal digits, most significant first. */
  function DigitsValue(s: string): nat
    requires AllDigits(s)
  {
    if s == [] then 0 else DigitsValue(s[..|s| - 1]) * 10 + DigitValue(s[|s| - 1])
  }

  lemma {:induction false} LeadingZeroValue(s: string)
    requires AllDigits(s)
    ensures AllDigits("0" + s) && DigitsValue("0" + s) == DigitsValue(s)
  {
    if s != [] {
      LeadingZeroValue(s[..|s| - 1]);
      assert ("0" + s)[..|"0" + s| - 1] == "0" + s[..|s| - 1];
    }
  }

  /** Python's `str(n)` for a natural number. */
  function NatToString(n: nat): (r: string)
    ensures |r| > 0 && AllDigits(r) && DigitsValue(r) == n
    ensures n > 0 ==> r[0] != '0'
  {
    if n < 10 then [DigitChar(n)]
    else
      var r := NatToString(n / 10) + [DigitChar(n % 10)];
      assert r[..|r| - 1] == NatToString(n / 10);
      r
  }

  /** Python's `str(i)` for any integer. */
  function IntToString(i: int): string {
    if i >= 0 then NatToString(i) else "-" + NatToString(-i)
  }

  function Zeros(k: nat): (r: string)
    ensures |r| == k && AllDigits(r)
  {
    if k == 0 then "" else "0" + Zeros(k - 1)
  }

  lemma {:induction false} ZerosValue(k: nat, s: string)
    requires AllDigits(s)
    ensures AllDigits(Zeros(k) + s) && DigitsValue(Zeros(k) + s) == DigitsValue(s)
  {
    if k > 0 {
      var u := Zeros(k - 1) + s;
      assert Zeros(k) + s == "0" + u;
      ZerosValue(k - 1, s);
      LeadingZeroValue(u);
      assert DigitsValue("0" + u) == DigitsValue(u);
    } else {
      assert Zeros(k) + s == s;
    }
  }

  /** Python's `f"{n:0{width}d}"` for a natural number. */
  function ZeroPad(n: nat, width: nat): (r: string)
    ensures AllDigits(r) && DigitsValue(r) == n
    ensures |r| == if |NatToString(n)| < width then width else |NatToString(n)|
  {
    var d := NatToString(n);
    ZerosValue(if |d| < width then width - |d| else 0, d);
    Zeros(if |d| < width then width - |d| else 0) + d
  }

  /** Python's `f"{i:0{width}d}"` for any integer: the sign counts in the width. */
  function ZeroPadInt(i: int, width: nat): string {
    if i >= 0 then ZeroPad(i, width) else "-" + ZeroPad(-i, if width > 0 then width - 1 else 0)
  }

  /** Zero-padded numbers are distinct for distinct values. */
  lemma ZeroPadInjective(a: nat, b: nat, width: nat)
    requires ZeroPad(a, width) == ZeroPad(b, width)
    ensures a == b
  {
  }

  /** The same holds with a sign: a negative number's text starts with `-`,
      a non-negative one's with a digit. */
  lemma ZeroPadIntInjective(a: int, b: int, width: nat)
    requires ZeroPadInt(a, width) == ZeroPadInt(b, width)
    ensures a == b
  {
    assert ZeroPadInt(a, width)[0] == '-' <==> a < 0;
    assert ZeroPadInt(b, width)[0] == '-' <==> b < 0;
    if a >= 0 && b >= 0 {
      ZeroPadInjective(a, b, width);
    } else if a < 0 && b < 0 {
      var w := if width > 0 then width - 1 else 0;
      assert ZeroPad(-a, w) == ZeroPadInt(a, width)[1..];
      ZeroPadInjective(-a, -b, w);
    }
  }

  /** Python's `int(s)` on a decimal literal: surrounding whitespace and one
      sign allowed; anything else is the ValueError case, `None`. */
  function ParseInt(s: string): (r: Option<int>)
  {
    ParseSigned(Strip(s))
  }

  /** `int()` after the surrounding whitespace is gone. */
  function ParseSigned(t: string): (r: Option<int>)
    ensures AllDigits(t) && |t| > 0 ==> r == Some(DigitsValue(t) as int)
  {
    if |t| > 0 && (t[0] == '-' || t[0] == '+') then
      var body := t[1..];
      if |body| > 0 && AllDigits(body) then
        Some(if t[0] == '-' then -(DigitsValue(body) as int) else DigitsValue(body))
      else None
    else if |t| > 0 && AllDigits(t) then Some(DigitsValue(t))
    else None
  }

  lemma {:induction false} StripOfDigits(s: string)
    requires AllDigits(s)
    ensures Strip(s) == s
  {
    if s != [] {
      assert !IsSpace(s[0]);
      assert !IsSpace(s[|s| - 1]);
    }
  }

  /** `int()` reads a run of decimal digits as its value. */
  lemma ParseDigits(t: string)
    requires |t| > 0 && AllDigits(t)
    ensures ParseInt(t) == Some(DigitsValue(t) as int)
  {
    StripOfDigits(t);
  }

  /** `int()` reads a minus sign and a run of digits as the negated value. */
  lemma ParseNegativeDigits(d: string, v: nat)
    requires |d| > 0 && AllDigits(d) && DigitsValue(d) == v
    ensures ParseInt("-" + d) == Some(-(v as int))
  {
    StripSigned(d);
    SignedDigits(d, v);
  }

  lemma StripSigned(d: string)
    requires |d| > 0 && AllDigits(d)
    ensures Strip("-" + d) == "-" + d
  {
    var t := "-" + d;
    assert t[|t| - 1] == d[|d| - 1];
    assert !IsSpace(t[0]) && !IsSpace(t[|t| - 1]);
    assert LStrip(t) == t;
    assert RStrip(t) == t;
  }

  lemma SignedDigits(d: string, v: nat)
    requires |d| > 0 && AllDigits(d) && DigitsValue(d) == v
    ensures ParseSigned("-" + d) == Some(-(v as int))
  {
    var t := "-" + d;
    assert t[1..] == d;
  }

  /** `int()` reads back what zero-padded formatting wrote. */
  lemma ParseZeroPad(n: nat, width: nat)
    ensures ParseInt(ZeroPad(n, width)) == Some(n)
  {
    assert |NatToString(n)| > 0;
    ParseDigits(ZeroPad(n, width));
  }

  /** The same with a sign. */
  lemma ParseZeroPadInt(i: int, width: nat)
    ensures ParseInt(ZeroPadInt(i, width)) == Some(i)
  {
    if i >= 0 {
      ParseZeroPad(i, width);
    } else {
      ParseNegativePad(i, width);
    }
  }

  lemma ParseNegativePad(i: int, width: nat)
    requires i < 0
    ensures ParseInt(ZeroPadInt(i, width)) == Some(i)
  {
    var d := ZeroPad(-i, if width > 0 then width - 1 else 0);
    assert ZeroPadInt(i, width) == "-" + d;
    assert |NatToString(-i)| > 0;
    ParseNegativeDigits(d, -i);
  }

  /** Python's `s[:n]`: a negative bound counts from the end. */
  function PrefixSlice<T>(s: seq<T>, n: int): (r: seq<T>)
    ensures |r| <= |s| && r == s[..|r|]
    ensures 0 <= n <= |s| ==> |r| == n
    ensures n >= |s| ==> r == s
  {
    if n >= 0 then (if n <= |s| then s[..n] else s)
    else if |s| + n >= 0 then s[..|s| + n] else []
  }

  /** Python's `s[n:]` for a natural n. */
  function SuffixFrom<T>(s: seq<T>, n: nat): seq<T> {
    if n <= |s| then s[n..] else []
  }
}
