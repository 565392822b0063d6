/** Shell-style name patterns as `Path.glob` applies them to the names of
    one directory (`fnmatch` rules, case-sensitive as on POSIX): `*`
    matches any run of characters, `?` any one character, and `[...]` one
    character of a set (`[!...]` one character outside it); a `[` without
    a closing `]` stands for itself. `glob.escape` makes every such
    character literal. */
module ShellPatterns {
  import opened Wrappers

  /** The characters that make a pattern a wildcard pattern. */
  predicate IsMeta(c: char) {
    c == '*' || c == '?' || c == '['
  }

  predicate NoMeta(s: string) {
    forall i :: 0 <= i < |s| ==> !IsMeta(s[i])
  }

  /** The first position at or after `i` holding `c`. */
  function CharFrom(s: string, c: char, i: nat): (r: Option<nat>)
    ensures r.Some? ==> i <= r.value < |s| && s[r.value] == c
    decreases |s| - i
  {
    if i >= |s| then None
    else if s[i] == c then Some(i)
    else CharFrom(s, c, i + 1)
  }

  /** Where the set opened by `p[0] == '['` closes: a `!` and then a `]`
      right after the bracket belong to the set, so the search for the
      closing `]` starts after them. */
  function ClassClose(p: string): (r: Option<nat>)
    requires |p| > 0 && p[0] == '['
    ensures r.Some? ==> 2 <= r.value < |p| && p[r.value] == ']'
  {
    var j := if 1 < |p| && p[1] == '!' then 2 else 1;
    var k := if j < |p| && p[j] == ']' then j + 1 else j;
    CharFrom(p, ']', k)
  }

  /** Membership in the items of a set: `a-z` is a range by code point
      (empty when reversed), a `-` first or last stands for itself. */
  predicate InItems(items: string, c: char)
    decreases |items|
  {
    if items == [] then false
    else if |items| >= 3 && items[1] == '-' then (items[0] <= c <= items[2]) || InItems(items[3..], c)
    else items[0] == c || InItems(items[1..], c)
  }

  /** Membership in the set written between the brackets. */
  predicate InClass(body: string, c: char) {
    if |body| > 0 && body[0] == '!' then !InItems(body[1..], c) else InItems(body, c)
  }

  /** Whether the whole name `n` matches the pattern `p`. */
  predicate Fnmatch(p: string, n: string)
    decreases |p|, |n|
  {
    if p == [] then n == []
    else if p[0] == '*' then Fnmatch(p[1..], n) || (n != [] && Fnmatch(p, n[1..]))
    else if p[0] == '?' then n != [] && Fnmatch(p[1..], n[1..])
    else if p[0] == '[' && ClassClose(p).Some? then
      var k := ClassClose(p).value;
      n != [] && InClass(p[1..k], n[0]) && Fnmatch(p[k + 1..], n[1..])
    else n != [] && n[0] == p[0] && Fnmatch(p[1..], n[1..])
  }

  /** `dir.glob(pattern)` for a pattern without `/`: the names of the
      listing that match, in listing order. */
  function Glob(files: seq<string>, pattern: string): (r: seq<string>)
    ensures forall x :: x in r <==> x in files && Fnmatch(pattern, x)
  {
    if files == [] then []
    else
      var n := |files| - 1;
      assert forall x :: x in files <==> x in files[..n] || x == files[n];
      Glob(files[..n], pattern) + (if Fnmatch(pattern, files[n]) then [files[n]] else [])
  }

  /** `glob.escape`: each `*`, `?` and `[` wrapped in brackets. */
  function Escape(s: string): (r: string)
  {
    if s == [] then []
    else (if IsMeta(s[0]) then ['[', s[0], ']'] else [s[0]]) + Escape(s[1..])
  }

  /** Text without pattern characters escapes to itself. */
  lemma {:induction false} EscapeNoMeta(s: string)
    requires NoMeta(s)
    ensures Escape(s) == s
  {
    if s != [] {
      assert NoMeta(s[1..]) by {
        forall i | 0 <= i < |s[1..]| ensures !IsMeta(s[1..][i]) {
          assert s[1..][i] == s[i + 1];
        }
      }
      EscapeNoMeta(s[1..]);
      assert !IsMeta(s[0]);
      assert s == [s[0]] + s[1..];
    }
  }

  /** One escaped pattern character matches exactly itself. */
  lemma EscapedMetaStep(c: char, q: string, n: string)
    requires IsMeta(c)
    ensures Fnmatch(['[', c, ']'] + q, n) <==> n != [] && n[0] == c && Fnmatch(q, n[1..])
  {
    var p := ['[', c, ']'] + q;
    assert p[0] == '[' && p[1] == c && p[2] == ']';
    assert CharFrom(p, ']', 1) == Some(2);
    assert ClassClose(p) == Some(2);
    assert p[1..2] == [c];
    if n != [] {
      assert InItems([c], n[0]) <==> c == n[0] by {
        assert [c][1..] == [];
      }
    }
    assert p[3..] == q;
  }

  /** A plain character matches exactly itself. */
  lemma PlainStep(c: char, q: string, n: string)
    requires !IsMeta(c)
    ensures Fnmatch([c] + q, n) <==> n != [] && n[0] == c && Fnmatch(q, n[1..])
  {
    var p := [c] + q;
    assert p[0] == c && p[1..] == q;
  }

  /** Escaping works character by character. */
  lemma EscapeCons(lit: string, q: string)
    requires lit != []
    ensures Escape(lit) + q == (if IsMeta(lit[0]) then ['[', lit[0], ']'] else [lit[0]]) + (Escape(lit[1..]) + q)
  {
  }

  /** A text starts with `lit` iff it starts with `lit[0]` and its tail with
      the rest of `lit`; what follows is the same either way. */
  lemma PrefixStep(lit: string, n: string)
    requires lit != [] && n != []
    ensures (|n| >= |lit| && n[..|lit|] == lit) <==>
            (n[0] == lit[0] && |n[1..]| >= |lit[1..]| && n[1..][..|lit[1..]|] == lit[1..])
    ensures |n| >= |lit| ==> n[1..][|lit[1..]|..] == n[|lit|..]
  {
    if |n| >= |lit| {
      assert n[..|lit|] == [n[0]] + n[1..][..|lit| - 1];
      assert lit == [lit[0]] + lit[1..];
    }
  }

  /** An escaped text at the front of a pattern matches exactly that text:
      the intended reading of `glob(escape(base) + rest)`. */
  lemma {:induction false} EscapedPrefix(lit: string, q: string, n: string)
    ensures Fnmatch(Escape(lit) + q, n) <==> |n| >= |lit| && n[..|lit|] == lit && Fnmatch(q, n[|lit|..])
    decreases |lit|
  {
    if lit == [] {
      assert Escape(lit) + q == q;
      assert n[..0] == lit && n[0..] == n;
    } else {
      var rest := Escape(lit[1..]) + q;
      EscapeCons(lit, q);
      if IsMeta(lit[0]) {
        EscapedMetaStep(lit[0], rest, n);
      } else {
        PlainStep(lit[0], rest, n);
      }
      if n != [] {
        EscapedPrefix(lit[1..], q, n[1..]);
        PrefixStep(lit, n);
      }
    }
  }

  /** A pattern without pattern characters matches only itself. */
  lemma LiteralMatch(lit: string, n: string)
    requires NoMeta(lit)
    ensures Fnmatch(lit, n) <==> n == lit
  {
    EscapeNoMeta(lit);
    EscapedPrefix(lit, [], n);
    assert Escape(lit) + [] == lit;
    if |n| >= |lit| && n[..|lit|] == lit && n[|lit|..] == [] {
      assert n == n[..|lit|] + n[|lit|..];
    }
  }

  /** `*` followed by plain text matches exactly the names ending with it. */
  lemma {:induction false} StarLiteral(lit: string, m: string)
    requires NoMeta(lit)
    ensures Fnmatch("*" + lit, m) <==> |m| >= |lit| && m[|m| - |lit|..] == lit
    decreases |m|
  {
    var p := "*" + lit;
    assert p[0] == '*' && p[1..] == lit;
    LiteralMatch(lit, m);
    if m != [] {
      StarLiteral(lit, m[1..]);
      if |m| - 1 >= |lit| {
        assert m[1..][|m| - 1 - |lit|..] == m[|m| - |lit|..];
      }
    }
  }
}
