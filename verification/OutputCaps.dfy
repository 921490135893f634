/** Cutting output to a line budget and a byte budget, with a marker that counts
    against the budget. Lengths in bytes are those of the UTF-8 encoding. */
module OutputCaps {
  import opened Prelude
  import opened Text

  // ----- bytes -----

  function Width(c: char): (n: nat)
    ensures 1 <= n <= 4
  {
    if c < '\U{80}' then 1 else if c < '\U{800}' then 2 else if c < '\U{10000}' then 3 else 4
  }

  /** How many bits a sequence of `n` bytes can carry (section 3 of RFC 3629). */
  function Capacity(n: nat): nat { if n == 1 then 0x80 else if n == 2 then 0x800 else if n == 3 then 0x1_0000 else 0x11_0000 }

  /** A character takes the fewest bytes that can carry it. */
  lemma WidthIsTheLeast(c: char, n: nat)
    requires 1 <= n <= 4
    ensures Width(c) <= n <==> c as int < Capacity(n)
  {}

  function Bytes(s: string): nat {
    if s == [] then 0 else Width(s[0]) + Bytes(s[1..])
  }

  /** A character starts or the text ends at this byte. */
  predicate IsCharBoundary(s: string, at: nat) {
    at == 0 || (s != [] && at >= Width(s[0]) && IsCharBoundary(s[1..], at - Width(s[0])))
  }

  /** How many characters stand before a boundary. */
  function CharsBefore(s: string, at: nat): (k: nat)
    requires IsCharBoundary(s, at)
    ensures k <= |s| && Bytes(s[..k]) == at
  {
    if at == 0 then 0
    else
      var k := CharsBefore(s[1..], at - Width(s[0]));
      assert s[..k + 1][1..] == s[1..][..k];
      k + 1
  }

  lemma {:induction false} BytesAppend(a: string, b: string)
    ensures Bytes(a + b) == Bytes(a) + Bytes(b)
  {
    if a == [] {
      assert a + b == b;
    } else {
      assert (a + b)[1..] == a[1..] + b;
      BytesAppend(a[1..], b);
    }
  }

  lemma BytesSplit(s: string, k: nat)
    requires k <= |s|
    ensures Bytes(s) == Bytes(s[..k]) + Bytes(s[k..])
  {
    assert s == s[..k] + s[k..];
    BytesAppend(s[..k], s[k..]);
  }

  lemma {:induction false} BoundaryAt(s: string, k: nat)
    requires k <= |s|
    ensures IsCharBoundary(s, Bytes(s[..k]))
  {
    if k > 0 {
      assert s[..k][1..] == s[1..][..k - 1];
      BoundaryAt(s[1..], k - 1);
    }
  }

  lemma BoundaryAtEnd(s: string)
    ensures IsCharBoundary(s, Bytes(s))
  {
    assert s[..|s|] == s;
    BoundaryAt(s, |s|);
  }

  // ----- the markers -----

  function Digits(n: nat): (d: string)
    ensures |d| >= 1
  {
    if n < 10 then [('0' as int + n) as char] else Digits(n / 10) + [('0' as int + n % 10) as char]
  }

  lemma {:induction false} DigitsGrow(n: nat, m: nat)
    requires n <= m
    ensures |Digits(n)| <= |Digits(m)|
  {
    if n >= 10 {
      DigitsGrow(n / 10, m / 10);
    }
  }

  /** All characters take one byte. */
  predicate Narrow(s: string) { forall c <- s :: c < '\U{80}' }

  lemma {:induction false} NarrowBytes(s: string)
    requires Narrow(s)
    ensures Bytes(s) == |s|
  {
    if s != [] {
      assert s[0] in s && forall c :: c in s[1..] ==> c in s;
      NarrowBytes(s[1..]);
    }
  }

  lemma {:induction false} DigitsAreNarrow(n: nat)
    ensures Narrow(Digits(n)) && '\n' !in Digits(n)
  {
    if n >= 10 {
      DigitsAreNarrow(n / 10);
    }
  }

  function Power(k: nat): nat { if k == 0 then 1 else 10 * Power(k - 1) }

  lemma {:induction false} DigitsBound(n: nat, k: nat)
    requires k >= 1 && n < Power(k)
    ensures |Digits(n)| <= k
  {
    assert Power(k) == 10 * Power(k - 1);
    assert k == 1 ==> Power(k - 1) == 1;
    if n >= 10 && k > 1 {
      DigitsBound(n / 10, k - 1);
    }
  }

  const MAX_U64: nat := 0xFFFF_FFFF_FFFF_FFFF

  lemma DigitsOfU64(n: nat)
    requires n <= MAX_U64
    ensures |Digits(n)| <= 20
  {
    assert Power(10) == 1_00000_00000;
    assert Power(20) == 1_00000_00000_00000_00000;
    DigitsBound(n, 20);
  }

  const MARKER_START := " (truncated, "
  const MARKER_END := " bytes omitted)"

  function ByteMarker(omitted: nat): string { "\U{2026}" + (MARKER_START + (Digits(omitted) + MARKER_END)) }

  lemma MarkerBytes(omitted: nat)
    ensures Bytes(ByteMarker(omitted)) == 31 + |Digits(omitted)|
    ensures ByteMarker(omitted) == "\U{2026} (truncated, " + Digits(omitted) + " bytes omitted)"
    ensures '\n' !in ByteMarker(omitted)
  {
    DigitsAreNarrow(omitted);
    NarrowParts();
    assert "\U{2026}" + MARKER_START == "\U{2026} (truncated, ";
    assert ByteMarker(omitted) == ("\U{2026}" + MARKER_START) + Digits(omitted) + MARKER_END;
    OneWideRestNarrow('\U{2026}', MARKER_START, Digits(omitted), MARKER_END);
  }

  lemma NarrowParts()
    ensures Narrow(MARKER_START) && |MARKER_START| == 13 && Narrow(MARKER_END) && |MARKER_END| == 15
    ensures '\n' !in MARKER_START && '\n' !in MARKER_END
  {}

  lemma OneWideRestNarrow(c: char, a: string, d: string, b: string)
    requires Narrow(a) && Narrow(d) && Narrow(b)
    ensures Bytes([c] + (a + (d + b))) == Width(c) + |a| + |d| + |b|
  {
    var rest := a + (d + b);
    assert Narrow(rest);
    NarrowBytes(rest);
    assert ([c] + rest)[1..] == rest;
  }

  // ----- the byte cap -----

  const MIN_MAX_BYTES: nat := 64

  datatype CapError = LinesTooFew | BytesTooFew

  /** A caller may ask for one line or more and for 64 bytes or more. */
  function ValidateOutputCaps(maxLines: Option<nat>, maxBytes: Option<nat>): (r: Result<(), CapError>)
    ensures r == Err(LinesTooFew) <==> maxLines == Some(0)
    ensures r == Err(BytesTooFew) <==> maxLines != Some(0) && maxBytes.Some? && maxBytes.value <= 63
  {
    if maxLines == Some(0) then Err(LinesTooFew)
    else if maxBytes.Some? && maxBytes.value < MIN_MAX_BYTES then Err(BytesTooFew)
    else Ok(())
  }

  /** What the cap leaves for content. */
  function Budget(s: string, cap: nat): nat {
    var reserved := 32 + |Digits(Bytes(s))|;
    if cap < reserved then 0 else cap - reserved
  }

  /** The longest prefix within the budget, in characters. */
  ghost predicate LongestPrefix(s: string, budget: nat, k: nat) {
    k < |s| && Bytes(s[..k]) <= budget < Bytes(s[..k + 1])
  }

  /** The longest suffix within the budget, given by where it starts. */
  ghost predicate LongestSuffix(s: string, budget: nat, k: nat) {
    0 < k <= |s| && Bytes(s[k..]) <= budget < Bytes(s[k - 1..])
  }

  /** Cut on a character boundary, as little as the budget allows, with the number of
      bytes that went. */
  ghost predicate ByteCapped(s: string, cap: nat, tail: bool, out: string) {
    if Bytes(s) <= cap then out == s
    else if tail then
      exists k: nat :: LongestSuffix(s, Budget(s, cap), k) && out == ByteMarker(Bytes(s[..k])) + "\n" + s[k..]
    else
      exists k: nat :: LongestPrefix(s, Budget(s, cap), k) && out == s[..k] + "\n" + ByteMarker(Bytes(s[k..]))
  }

  lemma {:induction false} BytesStrict(s: string, j: nat, k: nat)
    requires j < k <= |s|
    ensures Bytes(s[..j]) < Bytes(s[..k])
  {
    BytesSplit(s[..k], j);
    assert s[..k][..j] == s[..j] && s[..k][j..][0] == s[j];
  }

  /** The nearest boundary at or below a byte cuts the longest prefix within it. */
  lemma PrefixAtBoundary(s: string, budget: nat, end: nat)
    requires budget < Bytes(s) && end <= budget && IsCharBoundary(s, end)
    requires forall p: nat :: end < p <= budget ==> !IsCharBoundary(s, p)
    ensures LongestPrefix(s, budget, CharsBefore(s, end))
  {
    var k := CharsBefore(s, end);
    assert s[..|s|] == s;
    assert k < |s|;
    BytesStrict(s, k, k + 1);
    BoundaryAt(s, k + 1);
  }

  lemma SuffixAtBoundary(s: string, budget: nat, start: nat)
    requires budget < Bytes(s) && Bytes(s) - budget <= start <= Bytes(s) && IsCharBoundary(s, start)
    requires forall p: nat :: Bytes(s) - budget <= p < start ==> !IsCharBoundary(s, p)
    ensures LongestSuffix(s, budget, CharsBefore(s, start))
  {
    var k := CharsBefore(s, start);
    BytesSplit(s, k);
    assert k > 0 by { assert s[..0] == []; }
    BytesStrict(s, k - 1, k);
    BoundaryAt(s, k - 1);
    BytesSplit(s, k - 1);
  }

  method ApplyByteCap(s: string, maxBytes: Option<nat>, tail: bool) returns (out: string)
    ensures maxBytes.None? ==> out == s
    ensures maxBytes.Some? ==> ByteCapped(s, maxBytes.value, tail, out)
  {
    if maxBytes.None? || Bytes(s) <= maxBytes.value { return s; }
    var cap := maxBytes.value;
    MarkerBytes(Bytes(s));
    var reserved := Bytes(ByteMarker(Bytes(s))) + 1;
    var budget := if cap < reserved then 0 else cap - reserved;
    if tail {
      out := CutFront(s, budget);
    } else {
      out := CutBack(s, budget);
    }
  }

  /** Keep the last part, cut at the first boundary that fits. */
  method CutFront(s: string, budget: nat) returns (out: string)
    requires budget < Bytes(s)
    ensures exists k: nat :: LongestSuffix(s, budget, k) && out == ByteMarker(Bytes(s[..k])) + "\n" + s[k..]
  {
    var start := Bytes(s) - budget;
    BoundaryAtEnd(s);
    while !IsCharBoundary(s, start)
      invariant Bytes(s) - budget <= start <= Bytes(s)
      invariant forall p: nat :: Bytes(s) - budget <= p < start ==> !IsCharBoundary(s, p)
      decreases Bytes(s) - start
    {
      start := start + 1;
    }
    SuffixAtBoundary(s, budget, start);
    out := ByteMarker(start) + "\n" + s[CharsBefore(s, start)..];
  }

  /** Keep the first part, cut at the last boundary that fits. */
  method CutBack(s: string, budget: nat) returns (out: string)
    requires budget < Bytes(s)
    ensures exists k: nat :: LongestPrefix(s, budget, k) && out == s[..k] + "\n" + ByteMarker(Bytes(s[k..]))
  {
    var end := budget;
    while end > 0 && !IsCharBoundary(s, end)
      invariant 0 <= end <= budget
      invariant forall p: nat :: end < p <= budget ==> !IsCharBoundary(s, p)
    {
      end := end - 1;
    }
    PrefixAtBoundary(s, budget, end);
    BytesSplit(s, CharsBefore(s, end));
    out := s[..CharsBefore(s, end)] + "\n" + ByteMarker(Bytes(s) - end);
  }

  /** A cut output fits its cap exactly when the cap has room for the longest marker. */
  lemma CappedFits(s: string, cap: nat, tail: bool, out: string)
    requires ByteCapped(s, cap, tail, out) && Bytes(s) > cap
    ensures Bytes(out) <= cap <==> 32 + |Digits(Bytes(s))| <= cap
  {
    var budget := Budget(s, cap);
    if tail {
      var k: nat :| LongestSuffix(s, budget, k) && out == ByteMarker(Bytes(s[..k])) + "\n" + s[k..];
      CutBytes(ByteMarker(Bytes(s[..k])), s[k..]);
      BytesSplit(s, k);
      MarkerWithin(Bytes(s[..k]), Bytes(s));
      if budget == 0 { assert s[k..] == [] && s[..k] == s; }
    } else {
      var k: nat :| LongestPrefix(s, budget, k) && out == s[..k] + "\n" + ByteMarker(Bytes(s[k..]));
      CutBytes(s[..k], ByteMarker(Bytes(s[k..])));
      BytesSplit(s, k);
      MarkerWithin(Bytes(s[k..]), Bytes(s));
      if budget == 0 { assert s[..k] == [] && s[k..] == s; }
    }
  }

  lemma CutBytes(a: string, b: string)
    ensures Bytes(a + "\n" + b) == Bytes(a) + 1 + Bytes(b)
  {
    BytesAppend(a + "\n", b);
    BytesAppend(a, "\n");
  }

  lemma MarkerWithin(omitted: nat, all: nat)
    requires omitted <= all
    ensures Bytes(ByteMarker(omitted)) <= 31 + |Digits(all)|
    ensures omitted == all ==> Bytes(ByteMarker(omitted)) == 31 + |Digits(all)|
  {
    MarkerBytes(omitted);
    DigitsGrow(omitted, all);
  }

  /** The cap a caller may ask for is never exceeded. */
  lemma ByteCapHolds(s: string, cap: nat, tail: bool, out: string)
    requires ValidateOutputCaps(None, Some(cap)).Ok? && Bytes(s) <= MAX_U64
    requires ByteCapped(s, cap, tail, out)
    ensures Bytes(out) <= cap
  {
    DigitsOfU64(Bytes(s));
    if Bytes(s) > cap {
      CappedFits(s, cap, tail, out);
    }
  }

  /** Cutting on a boundary gives up at most three bytes of the budget. */
  lemma AtMostThreeBytesGivenUp(s: string, budget: nat, k: nat)
    ensures LongestPrefix(s, budget, k) ==> budget - Bytes(s[..k]) <= 3
    ensures LongestSuffix(s, budget, k) ==> budget - Bytes(s[k..]) <= 3
  {
    if LongestPrefix(s, budget, k) {
      BytesSplit(s[..k + 1], k);
      assert s[..k + 1][..k] == s[..k] && s[..k + 1][k..] == [s[k]];
    }
    if LongestSuffix(s, budget, k) {
      assert s[k - 1..][1..] == s[k..];
    }
  }

  // ----- the line cap -----

  function LineMarker(more: nat): string { "\U{2026}" + (MARKER_START + (Digits(more) + " more lines)")) }

  /** A text of these lines cut to a number of them, for any text of the marker line. */
  function CutTo(s: string, lines: seq<string>, cap: nat, tail: bool, marker: nat -> string): string {
    if |lines| <= cap then s
    else if cap <= 1 then marker(|lines|)
    else
      var left := marker(|lines| - (cap - 1));
      if tail then left + "\n" + Join(lines[|lines| - (cap - 1)..]) else Join(lines[..cap - 1]) + "\n" + left
  }

  function LineCapped(s: string, cap: nat, tail: bool): string { CutTo(s, Lines(s), cap, tail, LineMarker) }

  /** The last `n` lines, holding no more than `n` at a time. */
  method Ring(lines: seq<string>, n: nat) returns (ring: seq<string>)
    requires n > 0
    ensures ring == if |lines| <= n then lines else lines[|lines| - n..]
  {
    ring := [];
    for i := 0 to |lines|
      invariant ring == if i <= n then lines[..i] else lines[i - n..i]
      invariant |ring| <= n
    {
      if |ring| == n {
        ring := ring[1..];
      }
      ring := ring + [lines[i]];
    }
  }

  method ApplyLineCap(s: string, maxLines: Option<nat>, tail: bool) returns (out: string)
    ensures out == if maxLines.None? then s else LineCapped(s, maxLines.value, tail)
  {
    if maxLines.None? { return s; }
    var cap, lines := maxLines.value, Lines(s);
    if |lines| <= cap { return s; }
    var budget := if cap == 0 then 0 else cap - 1;
    var marker := LineMarker(|lines| - budget);
    if budget == 0 { return marker; }
    if tail {
      var kept := Ring(lines, budget);
      out := marker + "\n" + Join(kept);
    } else {
      out := Join(lines[..budget]) + "\n" + marker;
    }
  }

  /** A text of more lines than the cap comes out as the cap's lines less one, the first or
      the last of the text in their order, and a line above or below that says how many are
      left out; at most a carriage return at the end of a line is lost. */
  lemma CutLinesAre(s: string, cap: nat, tail: bool)
    requires |Lines(s)| > cap
    ensures var ls, kept := Lines(s), if cap == 0 then 0 else cap - 1;
            var out := Lines(LineCapped(s, cap, tail) + "\n");
            && |out| == kept + 1
            && out[if tail then 0 else kept] == "\U{2026} (truncated, " + Digits(|ls| - kept) + " more lines)"
            && forall i :: 0 <= i < kept ==>
                             if tail then out[i + 1] == StripCr(ls[|ls| - kept + i]) else out[i] == StripCr(ls[i])
  {
    var ls, kept := Lines(s), if cap == 0 then 0 else cap - 1;
    var marker := LineMarker(|ls| - kept);
    var pieces := if tail then [marker] + ls[|ls| - kept..] else ls[..kept] + [marker];
    LinesHaveNoNewline(s);
    MarkerIsALine(|ls| - kept);
    CutIsJoined(s, ls, cap, kept, tail, LineMarker);
    UnlinesOfJoin(pieces);
    LinesOfWritten(pieces);
    assert StripCr(marker) == marker;
  }

  lemma MarkerIsALine(n: nat)
    ensures '\n' !in LineMarker(n) && StripCr(LineMarker(n)) == LineMarker(n)
    ensures LineMarker(n) == "\U{2026} (truncated, " + Digits(n) + " more lines)"
  {
    DigitsAreNarrow(n);
    NarrowParts();
    assert '\n' !in " more lines)";
    assert LineMarker(n)[|LineMarker(n)| - 1] == ')';
    assert "\U{2026}" + MARKER_START == "\U{2026} (truncated, ";
    assert LineMarker(n) == ("\U{2026}" + MARKER_START) + Digits(n) + " more lines)";
  }

  lemma CutIsJoined(s: string, ls: seq<string>, cap: nat, kept: nat, tail: bool, marker: nat -> string)
    requires |ls| > cap && kept == (if cap == 0 then 0 else cap - 1)
    ensures CutTo(s, ls, cap, tail, marker)
         == Join(if tail then [marker(|ls| - kept)] + ls[|ls| - kept..] else ls[..kept] + [marker(|ls| - kept)])
  {
    var left := marker(|ls| - kept);
    if kept == 0 {
      assert [left] + ls[|ls|..] == [left] && ls[..0] + [left] == [left];
    } else if tail {
      assert ([left] + ls[|ls| - kept..])[1..] == ls[|ls| - kept..];
    } else {
      JoinSnoc(ls[..kept], left);
    }
  }

  lemma {:induction false} JoinSnoc(ls: seq<string>, l: string)
    requires ls != []
    ensures Join(ls + [l]) == Join(ls) + "\n" + l
  {
    var all := ls + [l];
    if |ls| == 1 {
      assert all[1..] == [l];
    } else {
      assert all[1..] == ls[1..] + [l];
      JoinSnoc(ls[1..], l);
      assert ls[0] + "\n" + (Join(ls[1..]) + "\n" + l) == (ls[0] + "\n" + Join(ls[1..])) + "\n" + l;
    }
  }

  // ----- counting lines -----

  function Newlines(s: string): nat {
    if s == [] then 0 else (if s[0] == '\n' then 1 else 0) + Newlines(s[1..])
  }

  /** Whether the last line is written without its newline. */
  function OpenLine(s: string): nat { if s == [] || s[|s| - 1] == '\n' then 0 else 1 }

  lemma {:induction false} NewlinesAppend(a: string, b: string)
    ensures Newlines(a + b) == Newlines(a) + Newlines(b)
  {
    if a == [] {
      assert a + b == b;
    } else {
      assert (a + b)[1..] == a[1..] + b;
      NewlinesAppend(a[1..], b);
    }
  }

  lemma {:induction false} NoNewlines(l: string)
    requires '\n' !in l
    ensures Newlines(l) == 0
  {
    if l != [] {
      assert l[0] in l && forall c :: c in l[1..] ==> c in l;
      NoNewlines(l[1..]);
    }
  }

  lemma {:induction false} CountLines(s: string)
    ensures |Lines(s)| == Newlines(s) + OpenLine(s)
    decreases |s|
  {
    if s != [] {
      var n := LineEnd(s);
      NoNewlines(s[..n]);
      if n < |s| {
        CountLines(s[n + 1..]);
        FirstLine(s, n);
      } else {
        assert s[..n] == s;
        assert s[|s| - 1] in s[..n];
      }
    }
  }

  lemma FirstLine(s: string, n: nat)
    requires n < |s| && s[n] == '\n' && Newlines(s[..n]) == 0
    ensures Newlines(s) == 1 + Newlines(s[n + 1..])
    ensures OpenLine(s) == OpenLine(s[n + 1..])
  {
    var rest := s[n + 1..];
    assert s == s[..n] + "\n" + rest;
    NewlinesAround(s[..n], rest);
  }

  lemma {:induction false} NewlinesOfJoin(ls: seq<string>)
    requires ls != [] && forall l :: l in ls ==> '\n' !in l
    ensures Newlines(Join(ls)) == |ls| - 1
  {
    NoNewlines(ls[0]);
    if |ls| > 1 {
      NewlinesOfJoin(ls[1..]);
      NewlinesAppend(ls[0] + "\n", Join(ls[1..]));
      NewlinesAppend(ls[0], "\n");
      NewlineIsOne();
    }
  }

  lemma NewlineIsOne()
    ensures Newlines("\n") == 1
  {
    assert "\n"[1..] == "";
  }

  lemma NewlinesAround(a: string, b: string)
    ensures Newlines(a + "\n" + b) == Newlines(a) + 1 + Newlines(b)
    ensures OpenLine(a + "\n" + b) == OpenLine(b)
  {
    NewlinesAppend(a + "\n", b);
    NewlinesAppend(a, "\n");
    NewlineIsOne();
  }

  lemma MarkersAreLines(n: nat)
    ensures Newlines(ByteMarker(n)) == 0 && OpenLine(ByteMarker(n)) == 1
    ensures Newlines(LineMarker(n)) == 0 && OpenLine(LineMarker(n)) == 1
  {
    MarkerBytes(n);
    NoNewlines(ByteMarker(n));
    DigitsAreNarrow(n);
    NarrowParts();
    assert '\n' !in " more lines)";
    NoNewlines(LineMarker(n));
    assert ByteMarker(n)[|ByteMarker(n)| - 1] == MARKER_END[|MARKER_END| - 1];
    assert LineMarker(n)[|LineMarker(n)| - 1] == ')';
  }

  lemma KeptAndMarker(kept: seq<string>, marker: string)
    requires kept != [] && (forall l :: l in kept ==> '\n' !in l)
    requires Newlines(marker) == 0 && OpenLine(marker) == 1
    ensures |Lines(marker + "\n" + Join(kept))| <= |kept| + 1
    ensures |Lines(Join(kept) + "\n" + marker)| == |kept| + 1
  {
    NewlinesOfJoin(kept);
    NewlinesAround(marker, Join(kept));
    NewlinesAround(Join(kept), marker);
    CountLines(marker + "\n" + Join(kept));
    CountLines(Join(kept) + "\n" + marker);
  }

  lemma FirstLinesHold(lines: seq<string>, budget: nat, marker: string)
    requires 0 < budget <= |lines| && forall l :: l in lines ==> '\n' !in l
    requires Newlines(marker) == 0 && OpenLine(marker) == 1
    ensures |Lines(Join(lines[..budget]) + "\n" + marker)| <= budget + 1
  {
    KeptAndMarker(lines[..budget], marker);
  }

  lemma LastLinesHold(lines: seq<string>, budget: nat, marker: string)
    requires 0 < budget <= |lines| && forall l :: l in lines ==> '\n' !in l
    requires Newlines(marker) == 0 && OpenLine(marker) == 1
    ensures |Lines(marker + "\n" + Join(lines[|lines| - budget..]))| <= budget + 1
  {
    KeptAndMarker(lines[|lines| - budget..], marker);
  }

  lemma CutToHolds(s: string, lines: seq<string>, cap: nat, tail: bool, marker: nat -> string, out: string)
    requires cap > 0 && out == CutTo(s, lines, cap, tail, marker) && (out == s ==> |Lines(out)| == |lines|)
    requires forall n :: Newlines(marker(n)) == 0 && OpenLine(marker(n)) == 1
    requires forall l :: l in lines ==> '\n' !in l
    ensures |Lines(out)| <= cap
  {
    if |lines| <= cap {
    } else if cap == 1 {
      CountLines(out);
    } else if tail {
      LastLinesHold(lines, cap - 1, marker(|lines| - (cap - 1)));
    } else {
      FirstLinesHold(lines, cap - 1, marker(|lines| - (cap - 1)));
    }
  }

  /** The line cap alone is never exceeded. */
  lemma LineCapHolds(s: string, cap: nat, tail: bool)
    requires ValidateOutputCaps(Some(cap), None).Ok?
    ensures |Lines(LineCapped(s, cap, tail))| <= cap
  {
    forall n ensures Newlines(LineMarker(n)) == 0 && OpenLine(LineMarker(n)) == 1 {
      MarkersAreLines(n);
    }
    LinesHaveNoNewline(s);
    CutToHolds(s, Lines(s), cap, tail, LineMarker, LineCapped(s, cap, tail));
  }

  // ----- both caps -----

  /** What the cut at `k` characters left out keeps to one line of the text. */
  predicate CutsWithinALine(s: string, k: nat, tail: bool)
    requires k <= |s|
  {
    if tail then k < |s| && '\n' !in s[..k] else |Lines(s[k..])| == 1
  }

  /** Cutting bytes adds at most the marker's line, and adds it exactly when what was left
      out keeps to one line. */
  lemma ByteCapAddsOneLine(s: string, cap: nat, tail: bool, out: string)
    requires ByteCapped(s, cap, tail, out)
    ensures |Lines(out)| <= |Lines(s)| + 1
    ensures Bytes(s) <= cap ==> out == s
    ensures Bytes(s) > cap ==>
              exists k: nat :: k <= |s| && CutAt(s, Budget(s, cap), k, tail, out)
                               && (|Lines(out)| == |Lines(s)| + 1 <==> CutsWithinALine(s, k, tail))
  {
    if Bytes(s) > cap {
      if tail {
        var k: nat :| LongestSuffix(s, Budget(s, cap), k) && out == ByteMarker(Bytes(s[..k])) + "\n" + s[k..];
        TailCutLines(s, k, out);
        assert CutAt(s, Budget(s, cap), k, tail, out);
      } else {
        var k: nat :| LongestPrefix(s, Budget(s, cap), k) && out == s[..k] + "\n" + ByteMarker(Bytes(s[k..]));
        HeadCutLines(s, k, out);
        assert CutAt(s, Budget(s, cap), k, tail, out);
      }
    }
  }

  ghost predicate CutAt(s: string, budget: nat, k: nat, tail: bool, out: string)
    requires k <= |s|
  {
    if tail then LongestSuffix(s, budget, k) && out == ByteMarker(Bytes(s[..k])) + "\n" + s[k..]
    else LongestPrefix(s, budget, k) && out == s[..k] + "\n" + ByteMarker(Bytes(s[k..]))
  }

  lemma TailCutLines(s: string, k: nat, out: string)
    requires s != [] && k <= |s| && out == ByteMarker(Bytes(s[..k])) + "\n" + s[k..]
    ensures |Lines(out)| <= |Lines(s)| + 1
    ensures |Lines(out)| == |Lines(s)| + 1 <==> CutsWithinALine(s, k, true)
  {
    CountLines(s);
    CountLines(out);
    MarkersAreLines(Bytes(s[..k]));
    NewlinesAround(ByteMarker(Bytes(s[..k])), s[k..]);
    CutLines(s, k);
    SomeLine(s);
    NoNewlinesExactly(s[..k]);
  }

  lemma HeadCutLines(s: string, k: nat, out: string)
    requires k < |s| && out == s[..k] + "\n" + ByteMarker(Bytes(s[k..]))
    ensures |Lines(out)| <= |Lines(s)| + 1
    ensures |Lines(out)| == |Lines(s)| + 1 <==> CutsWithinALine(s, k, false)
  {
    CountLines(s);
    CountLines(s[k..]);
    CountLines(out);
    MarkersAreLines(Bytes(s[k..]));
    NewlinesAround(s[..k], ByteMarker(Bytes(s[k..])));
    CutLines(s, k);
  }

  lemma {:induction false} NoNewlinesExactly(s: string)
    ensures Newlines(s) == 0 <==> '\n' !in s
  {
    if s != [] {
      NoNewlinesExactly(s[1..]);
    }
  }

  lemma CutLines(s: string, k: nat)
    requires k <= |s|
    ensures Newlines(s) == Newlines(s[..k]) + Newlines(s[k..])
    ensures k < |s| ==> OpenLine(s) == OpenLine(s[k..]) && Newlines(s[k..]) + OpenLine(s[k..]) >= 1
  {
    var p, q := s[..k], s[k..];
    assert s == p + q;
    NewlinesAppend(p, q);
    if k < |s| {
      assert q[|q| - 1] == s[|s| - 1];
      SomeLine(q);
    }
  }

  lemma {:induction false} SomeLine(s: string)
    requires s != []
    ensures Newlines(s) + OpenLine(s) >= 1
  {
    if |s| > 1 {
      assert s[1..][|s| - 2] == s[|s| - 1];
      SomeLine(s[1..]);
    }
  }

  /** With both caps the bytes stay within theirs and the lines within one more than
      theirs; one more is reached exactly when the line cap is used up and the byte cap cuts
      within a line. */
  lemma BothCapsHold(s: string, maxLines: nat, maxBytes: nat, tail: bool, out: string)
    requires ValidateOutputCaps(Some(maxLines), Some(maxBytes)).Ok?
    requires Bytes(LineCapped(s, maxLines, tail)) <= MAX_U64
    requires ByteCapped(LineCapped(s, maxLines, tail), maxBytes, tail, out)
    ensures Bytes(out) <= maxBytes && |Lines(out)| <= maxLines + 1
    ensures var t := LineCapped(s, maxLines, tail);
            |Lines(out)| == maxLines + 1 <==>
            && Bytes(t) > maxBytes && |Lines(t)| == maxLines
            && exists k: nat :: k <= |t| && CutAt(t, Budget(t, maxBytes), k, tail, out) && CutsWithinALine(t, k, tail)
  {
    var t := LineCapped(s, maxLines, tail);
    LineCapHolds(s, maxLines, tail);
    ByteCapHolds(t, maxBytes, tail, out);
    ByteCapAddsOneLine(t, maxBytes, tail, out);
    var budget := Budget(t, maxBytes);
    forall j: nat, k: nat | j <= |t| && k <= |t| && CutAt(t, budget, j, tail, out) && CutAt(t, budget, k, tail, out)
      ensures j == k
    {
      CutIsUnique(t, budget, j, k, tail, out);
    }
  }

  lemma CutIsUnique(s: string, budget: nat, j: nat, k: nat, tail: bool, out: string)
    requires j <= |s| && k <= |s| && CutAt(s, budget, j, tail, out) && CutAt(s, budget, k, tail, out)
    ensures j == k
  {
    if j < k { LaterCutDiffers(s, budget, j, k, tail, out); }
    if k < j { LaterCutDiffers(s, budget, k, j, tail, out); }
  }

  lemma LaterCutDiffers(s: string, budget: nat, j: nat, k: nat, tail: bool, out: string)
    requires j < k <= |s| && CutAt(s, budget, j, tail, out)
    ensures !CutAt(s, budget, k, tail, out)
  {
    if tail {
      BytesSplit(s[j..], k - 1 - j);
      assert s[j..][k - 1 - j..] == s[k - 1..];
    } else {
      BytesSplit(s[..k], j + 1);
      assert s[..k][..j + 1] == s[..j + 1];
    }
  }

  /** One more is reached: a single long line comes out as two. */
  lemma OneMoreIsReached(out: string)
    requires ByteCapped(LineCapped(seq(1000, _ => 'a'), 1, false), 64, false, out)
    ensures |Lines(out)| == 2
  {
    var s := seq(1000, _ => 'a');
    NarrowBytes(s);
    CountLines(s);
    NoNewlines(s);
    var k: nat :| LongestPrefix(s, Budget(s, 64), k) && out == s[..k] + "\n" + ByteMarker(Bytes(s[k..]));
    NoNewlines(s[..k]);
    MarkersAreLines(Bytes(s[k..]));
    NewlinesAround(s[..k], ByteMarker(Bytes(s[k..])));
    CountLines(out);
  }
}
