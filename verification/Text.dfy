/** The string operations of the original's standard library that the text
    transformations are built from. */
module Text {
  import opened Prelude

  /** The characters with the Unicode property White_Space. */
  predicate IsWhitespace(c: char) {
    || ('\t' <= c <= '\r') || c == ' ' || c == '\U{85}' || c == '\U{A0}' || c == '\U{1680}'
    || ('\U{2000}' <= c <= '\U{200A}') || c == '\U{2028}' || c == '\U{2029}' || c == '\U{202F}'
    || c == '\U{205F}' || c == '\U{3000}'
  }

  /** Their code points. */
  const WHITE_SPACE: set<int> :=
    {0x09, 0x0A, 0x0B, 0x0C, 0x0D, 0x20, 0x85, 0xA0, 0x1680, 0x2000, 0x2001, 0x2002, 0x2003, 0x2004, 0x2005, 0x2006,
     0x2007, 0x2008, 0x2009, 0x200A, 0x2028, 0x2029, 0x202F, 0x205F, 0x3000}

  lemma WhitespaceIsTheProperty(c: char)
    ensures IsWhitespace(c) <==> c as int in WHITE_SPACE
  {}

  predicate IsDigit(c: char) { '0' <= c <= '9' }

  function TrimStart(s: string): (r: string)
    ensures r != [] ==> !IsWhitespace(r[0])
    ensures |r| <= |s| && s[|s| - |r|..] == r
  {
    if s != [] && IsWhitespace(s[0]) then TrimStart(s[1..]) else s
  }

  function TrimEnd(s: string): (r: string)
    ensures r != [] ==> !IsWhitespace(r[|r| - 1])
    ensures |r| <= |s| && s[..|r|] == r
    ensures forall i :: |r| <= i < |s| ==> IsWhitespace(s[i])
  {
    if s != [] && IsWhitespace(s[|s| - 1]) then TrimEnd(s[..|s| - 1]) else s
  }

  function Trim(s: string): string { TrimEnd(TrimStart(s)) }

  /** Some character is not whitespace. */
  predicate HasText(s: string) { exists c <- s :: !IsWhitespace(c) }

  /** A trimmed text is what stands between the whitespace at both ends, nothing exactly when
      there is nothing else. */
  lemma TrimIsTheInside(s: string) returns (i: nat, j: nat)
    ensures i <= j <= |s| && Trim(s) == s[i..j]
    ensures forall k :: 0 <= k < i || j <= k < |s| ==> IsWhitespace(s[k])
    ensures i < j ==> !IsWhitespace(s[i]) && !IsWhitespace(s[j - 1])
    ensures i < j <==> HasText(s)
  {
    TrimStartTakesBlanks(s);
    i, j := Between(s, TrimStart(s), Trim(s));
    OnlyInside(s, i, j);
  }

  lemma {:induction false} TrimStartTakesBlanks(s: string)
    ensures forall k :: 0 <= k < |s| - |TrimStart(s)| ==> IsWhitespace(s[k])
  {
    if s != [] && IsWhitespace(s[0]) {
      TrimStartTakesBlanks(s[1..]);
      assert forall k :: 1 <= k < |s| ==> s[k] == s[1..][k - 1];
    }
  }

  lemma Between(s: string, front: string, inside: string) returns (i: nat, j: nat)
    requires |front| <= |s| && s[|s| - |front|..] == front && forall k :: 0 <= k < |s| - |front| ==> IsWhitespace(s[k])
    requires |inside| <= |front| && front[..|inside|] == inside
    requires forall k :: |inside| <= k < |front| ==> IsWhitespace(front[k])
    ensures i <= j <= |s| && inside == s[i..j] && i == |s| - |front| && j == i + |inside|
    ensures forall k :: 0 <= k < i || j <= k < |s| ==> IsWhitespace(s[k])
  {
    i := |s| - |front|;
    j := i + |inside|;
    forall k | j <= k < |s| ensures IsWhitespace(s[k]) {
      assert s[k] == front[k - i];
    }
  }

  lemma OnlyInside(s: string, i: nat, j: nat)
    requires i <= j <= |s| && (forall k :: 0 <= k < i || j <= k < |s| ==> IsWhitespace(s[k]))
    requires i < j ==> !IsWhitespace(s[i])
    ensures i < j <==> HasText(s)
  {
    if i < j {
      assert s[i] in s;
    }
  }

  /** How many characters stand before the first whitespace. */
  function FirstWhitespace(s: string): (n: nat)
    ensures n <= |s| && forall i :: 0 <= i < n ==> !IsWhitespace(s[i])
    ensures n < |s| ==> IsWhitespace(s[n])
  {
    if s == [] || IsWhitespace(s[0]) then 0 else 1 + FirstWhitespace(s[1..])
  }

  /** Where `needle` first occurs. */
  function Find(s: string, needle: string): (r: Option<nat>)
    ensures r.Some? ==> r.value + |needle| <= |s| && needle <= s[r.value..]
    ensures r.Some? ==> forall i :: 0 <= i < r.value ==> !(needle <= s[i..])
    ensures r.None? ==> forall i :: 0 <= i <= |s| ==> !(needle <= s[i..])
  {
    if needle <= s then Some(0)
    else if s == [] then None
    else
      var rest := Find(s[1..], needle);
      assert forall i :: 1 <= i <= |s| ==> s[i..] == s[1..][i - 1..];
      if rest.Some? then Some(rest.value + 1) else None
  }

  /** Where a character first occurs. */
  function FindChar(s: string, c: char): (r: Option<nat>)
    ensures r.Some? ==> r.value < |s| && s[r.value] == c && c !in s[..r.value]
    ensures r.None? ==> c !in s
  {
    if s == [] then None
    else if s[0] == c then Some(0)
    else
      var rest := FindChar(s[1..], c);
      if rest.Some? then
        assert s[..rest.value + 1] == [s[0]] + s[1..][..rest.value];
        Some(rest.value + 1)
      else None
  }

  predicate Contains(s: string, needle: string) {
    exists i :: 0 <= i <= |s| && needle <= s[i..]
  }

  /** Index of the first newline, or the length. */
  function LineEnd(s: string): (n: nat)
    ensures n <= |s| && '\n' !in s[..n]
    ensures n < |s| ==> s[n] == '\n'
  {
    if s == [] || s[0] == '\n' then 0 else 1 + LineEnd(s[1..])
  }

  function StripCr(s: string): string {
    if s != [] && s[|s| - 1] == '\r' then s[..|s| - 1] else s
  }

  /** One carriage return comes off the end, and nothing else. */
  lemma OneCarriageReturn(l: string)
    ensures StripCr(l + "\r") == l
    ensures (l == [] || l[|l| - 1] != '\r') ==> StripCr(l) == l
  {
    assert (l + "\r")[|l|] == '\r' && (l + "\r")[..|l|] == l;
  }

  /** The lines of a text: the final newline is optional, a carriage return is part of
      a line ending only in front of a newline. */
  function Lines(s: string): seq<string> {
    if s == [] then []
    else
      var n := LineEnd(s);
      if n == |s| then [s] else [StripCr(s[..n])] + Lines(s[n + 1..])
  }

  /** A line as `Lines` can give it back: no newline, no carriage return at its end. */
  predicate IsLine(l: string) {
    '\n' !in l && (l != [] ==> l[|l| - 1] != '\r')
  }

  /** Each line followed by a newline. */
  function Unlines(ls: seq<string>): string {
    if ls == [] then [] else ls[0] + "\n" + Unlines(ls[1..])
  }

  /** The lines with newlines between them. */
  function Join(ls: seq<string>): string {
    if ls == [] then [] else if |ls| == 1 then ls[0] else ls[0] + "\n" + Join(ls[1..])
  }

  /** `ps` are the places, in order, of exactly the lines that `keep` holds of. */
  ghost predicate Places(ls: seq<string>, keep: string -> bool, ps: seq<nat>) {
    && |ps| <= |ls| && (forall i :: 0 <= i < |ps| ==> ps[i] < |ls|)
    && (forall i, j :: 0 <= i < j < |ps| ==> ps[i] < ps[j])
    && (forall k: nat :: k < |ls| ==> (k in ps <==> keep(ls[k])))
  }

  lemma {:induction false} PlacesExist(ls: seq<string>, keep: string -> bool) returns (ps: seq<nat>)
    ensures Places(ls, keep, ps)
  {
    ps := [];
    if ls != [] {
      var n := |ls| - 1;
      ps := PlacesExist(ls[..n], keep);
      if keep(ls[n]) { ps := ps + [n]; }
    }
  }

  lemma LastIsOne(before: seq<string>, l: string, keep: string -> bool, ps: seq<nat>)
    requires Places(before + [l], keep, ps) && keep(l)
    ensures ps != [] && ps == ps[..|ps| - 1] + [|before|] && Places(before, keep, ps[..|ps| - 1])
  {
    var ls, n := before + [l], |before|;
    assert ls[n] == l && n in ps;
    LargestIsLast(ps, n);
    var qs := ps[..|ps| - 1];
    assert ps == qs + [n];
    forall i | 0 <= i < |qs| ensures qs[i] < n { assert ps[i] < ps[|ps| - 1]; }
    assert forall k: nat :: k < n ==> ls[k] == before[k] && (k in ps <==> k in qs);
    FewerThan(qs, n);
  }

  lemma LastIsNone(before: seq<string>, l: string, keep: string -> bool, ps: seq<nat>)
    requires Places(before + [l], keep, ps) && !keep(l)
    ensures Places(before, keep, ps)
  {
    var ls, n := before + [l], |before|;
    assert ls[n] == l && n !in ps;
    forall i | 0 <= i < |ps| ensures ps[i] < n { assert ps[i] in ps; }
    assert forall k: nat :: k < n ==> ls[k] == before[k];
    FewerThan(ps, n);
  }

  lemma LargestIsLast(ps: seq<nat>, n: nat)
    requires n in ps && (forall i :: 0 <= i < |ps| ==> ps[i] <= n)
    requires forall i, j :: 0 <= i < j < |ps| ==> ps[i] < ps[j]
    ensures ps[|ps| - 1] == n
  {
    var i :| 0 <= i < |ps| && ps[i] == n;
    var last := ps[|ps| - 1];
    assert ps[i] <= last <= n;
  }

  lemma {:induction false} FewerThan(ps: seq<nat>, n: nat)
    requires (forall i :: 0 <= i < |ps| ==> ps[i] < n) && forall i, j :: 0 <= i < j < |ps| ==> ps[i] < ps[j]
    ensures |ps| <= n
  {
    if ps != [] {
      FewerThan(ps[..|ps| - 1], ps[|ps| - 1]);
    }
  }

  lemma Regroup(a: string, b: string, c: string)
    ensures a + (b + c) == (a + b) + c
  {}

  lemma {:induction false} LineEndOf(l: string, rest: string)
    requires '\n' !in l
    ensures LineEnd(l + "\n" + rest) == |l|
    ensures LineEnd(l) == |l|
  {
    if l != [] {
      assert l[0] in l;
      assert (l + "\n" + rest)[1..] == l[1..] + "\n" + rest;
      LineEndOf(l[1..], rest);
    }
  }

  lemma LinesCons(l: string, rest: string)
    requires '\n' !in l
    ensures Lines(l + "\n" + rest) == [StripCr(l)] + Lines(rest)
  {
    var s := l + "\n" + rest;
    LineEndOf(l, rest);
    assert s[..|l|] == l && s[|l| + 1..] == rest;
  }

  function Each(f: string -> string, pieces: seq<string>): seq<string> { seq(|pieces|,
    k requires 0 <= k < |pieces| => f(pieces[k])) }

  predicate NewlineFree(ls: seq<string>) { forall l <- ls :: '\n' !in l }

  /** Lines written out are read back, but for a carriage return at the end of each. */
  lemma {:induction false} LinesOfWritten(ls: seq<string>)
    requires NewlineFree(ls)
    ensures Lines(Unlines(ls)) == Each(StripCr, ls)
  {
    if ls != [] {
      var head, rest := ls[0], ls[1..];
      assert head in ls && forall l :: l in rest ==> l in ls;
      LinesOfWritten(rest);
      LinesCons(head, Unlines(rest));
      assert Each(StripCr, ls) == [StripCr(head)] + Each(StripCr, rest);
    }
  }

  lemma {:induction false} UnlinesOfJoin(ls: seq<string>)
    requires ls != []
    ensures Unlines(ls) == Join(ls) + "\n"
  {
    if |ls| == 1 {
      assert ls[1..] == [];
      assert Unlines(ls) == ls[0] + "\n" + [];
    } else {
      UnlinesOfJoin(ls[1..]);
      assert ls[0] + "\n" + (Join(ls[1..]) + "\n") == Join(ls) + "\n";
    }
  }

  lemma {:induction false} LinesHaveNoNewline(s: string)
    ensures forall l :: l in Lines(s) ==> '\n' !in l
  {
    if s != [] {
      var n := LineEnd(s);
      if n < |s| {
        LinesHaveNoNewline(s[n + 1..]);
        assert forall c :: c in StripCr(s[..n]) ==> c in s[..n];
      }
    }
  }

  /** `Join` loses nothing about non-blank lines. */
  lemma {:induction false} JoinIsInjective(a: seq<string>, b: seq<string>)
    requires forall l :: l in a + b ==> l != [] && '\n' !in l
    requires Join(a) == Join(b)
    ensures a == b
  {
    assert a != [] ==> a[0] in a + b && |Join(a)| >= |a[0]|;
    assert b != [] ==> b[0] in a + b && |Join(b)| >= |b[0]|;
    if a != [] && b != [] {
      assert a[0] in a + b && b[0] in a + b;
      var x, y := Join(a), Join(b);
      JoinHead(a);
      JoinHead(b);
      assert |a| == 1 <==> '\n' !in x;
      assert a[0] == x[..LineEnd(x)] && b[0] == y[..LineEnd(y)];
      if |a| > 1 {
        assert forall l :: l in a[1..] + b[1..] ==> l in a + b;
        assert Join(a[1..]) == x[LineEnd(x) + 1..];
        JoinIsInjective(a[1..], b[1..]);
        assert a == [a[0]] + a[1..] && b == [b[0]] + b[1..];
      } else {
        assert a == [a[0]] && b == [b[0]];
      }
    }
  }

  lemma JoinHead(a: seq<string>)
    requires a != [] && '\n' !in a[0]
    ensures LineEnd(Join(a)) == |a[0]| && Join(a)[..|a[0]|] == a[0]
    ensures |a| == 1 <==> LineEnd(Join(a)) == |Join(a)|
    ensures |a| == 1 ==> '\n' !in Join(a)
    ensures |a| > 1 ==> '\n' in Join(a) && Join(a)[|a[0]| + 1..] == Join(a[1..])
  {
    if |a| == 1 {
      LineEndOf(a[0], []);
    } else {
      LineEndOf(a[0], Join(a[1..]));
      assert Join(a)[|a[0]|] == '\n';
    }
  }
}
