/** Pipe modifiers applied to command output: cutting the command at its pipes, and
    filtering, counting and cutting the lines. */
module OutputPipes {
  import opened Prelude
  import opened Text
  import opened OutputCaps

  // ----- cutting a command at its pipes -----

  const PIPE := " | "

  /** Outside quotes, inside a pair of `quote`, or behind a backslash inside one. */
  datatype Quoting = Out | In(quote: char) | Escaped(quote: char)

  function Next(q: Quoting, c: char): Quoting {
    match q
    case Out => if c == '"' || c == '\'' then In(c) else Out
    case In(quote) => if c == '\\' then Escaped(quote) else if c == quote then Out else q
    case Escaped(quote) => In(quote)
  }

  predicate StartsWithPipe(s: string) { |s| >= 3 && s[0] == ' ' && s[1] == '|' && s[2] == ' ' }

  /** The first pipe outside quotes. */
  function FirstPipe(s: string, q: Quoting): (r: Option<nat>)
    ensures r.Some? ==> r.value + 3 <= |s| && s[r.value] == ' ' && s[r.value + 1] == '|' && s[r.value + 2] == ' '
  {
    if s == [] then None
    else if q == Out && StartsWithPipe(s) then Some(0)
    else
      var r := FirstPipe(s[1..], Next(q, s[0]));
      if r.Some? then Some(r.value + 1) else None
  }

  function Pieces(s: string): (r: seq<string>)
    ensures r != []
    decreases |s|
  {
    var at := FirstPipe(s, Out);
    if at.None? then [s] else [s[..at.value]] + Pieces(s[at.value + 3..])
  }

  /** How many pieces count: all but an empty last one. */
  function Kept(pieces: seq<string>): nat {
    if pieces != [] && pieces[|pieces| - 1] == [] then |pieces| - 1 else |pieces|
  }

  function Segments(command: string): seq<string> { Each(Trim, Pieces(command)[..Kept(Pieces(command))]) }

  /** The pieces still to come, with `current` read of the first. */
  function Rest(current: string, s: string, q: Quoting): seq<string> {
    var at := FirstPipe(s, q);
    if at.Some? then [current + s[..at.value]] + Pieces(s[at.value + 3..]) else [current + s]
  }

  lemma RestOfAll(s: string)
    ensures Rest([], s, Out) == Pieces(s)
  {
    var at := FirstPipe(s, Out);
    assert at.Some? ==> [] + s[..at.value] == s[..at.value];
    assert [] + s == s;
  }

  lemma OneChar(current: string, s: string, q: Quoting)
    requires s != [] && !(q == Out && StartsWithPipe(s))
    ensures Rest(current, s, q) == Rest(current + [s[0]], s[1..], Next(q, s[0]))
  {
    var c, at := s[0], FirstPipe(s, q);
    assert current + s == current + [c] + s[1..];
    if at.Some? {
      assert current + s[..at.value] == current + [c] + s[1..][..at.value - 1];
      assert s[at.value + 3..] == s[1..][at.value - 1 + 3..];
    }
  }

  lemma OnePipe(current: string, s: string)
    requires StartsWithPipe(s)
    ensures Rest(current, s, Out) == [current] + Rest([], s[3..], Out)
  {
    RestOfAll(s[3..]);
    assert current + s[..0] == current;
  }

  lemma CharAt(current: string, s: string, i: nat, q: Quoting)
    requires i < |s| && !(q == Out && i + 2 < |s| && s[i] == ' ' && s[i + 1] == '|' && s[i + 2] == ' ')
    ensures Rest(current, s[i..], q) == Rest(current + [s[i]], s[i + 1..], Next(q, s[i]))
  {
    var rest := s[i..];
    assert rest[1..] == s[i + 1..];
    OneChar(current, rest, q);
  }

  lemma PipeAt(current: string, s: string, i: nat)
    requires i + 2 < |s| && s[i] == ' ' && s[i + 1] == '|' && s[i + 2] == ' '
    ensures Rest(current, s[i..], Out) == [current] + Rest([], s[i + 3..], Out)
  {
    var rest := s[i..];
    assert rest[3..] == s[i + 3..];
    OnePipe(current, rest);
  }

  lemma RegroupPieces(a: seq<string>, b: seq<string>, c: seq<string>)
    ensures a + (b + c) == (a + b) + c
  {}

  function FlagsOf(inDouble: bool, inSingle: bool): Quoting {
    if inDouble then In('"') else if inSingle then In('\'') else Out
  }

  lemma EachLast(f: string -> string, done: seq<string>, current: string)
    ensures Each(f, done + [current]) == Each(f, done) + [f(current)]
    ensures (done + [current])[..Kept(done + [current])] == if current == [] then done else done + [current]
  {}

  method SplitPipes(s: string) returns (segments: seq<string>)
    ensures segments == Segments(s)
  {
    segments := [];
    ghost var done: seq<string> := [];
    var current: string, inDouble, inSingle, i := [], false, false, 0;
    RestOfAll(s);
    assert s[0..] == s;
    while i < |s|
      invariant i <= |s| && !(inDouble && inSingle)
      invariant done + Rest(current, s[i..], FlagsOf(inDouble, inSingle)) == Pieces(s)
      invariant segments == Each(Trim, done)
    {
      var c, q := s[i], FlagsOf(inDouble, inSingle);
      if (inDouble || inSingle) && c == '\\' && i + 1 < |s| {
        CharAt(current, s, i, q);
        CharAt(current + [c], s, i + 1, Next(q, c));
        current, i := current + [c] + [s[i + 1]], i + 2;
      } else if !inDouble && !inSingle && i + 2 < |s| && c == ' ' && s[i + 1] == '|' && s[i + 2] == ' ' {
        PipeAt(current, s, i);
        RegroupPieces(done, [current], Rest([], s[i + 3..], Out));
        EachLast(Trim, done, current);
        done := done + [current];
        segments, current, i := segments + [Trim(current)], [], i + 3;
      } else {
        CharAt(current, s, i, q);
        if c == '"' && !inSingle {
          inDouble := !inDouble;
        } else if c == '\'' && !inDouble {
          inSingle := !inSingle;
        }
        current, i := current + [c], i + 1;
      }
    }
    assert s[i..] == [] && current + [] == current;
    EachLast(Trim, done, current);
    if current != [] {
      segments := segments + [Trim(current)];
    }
  }

  // ----- cutting and joining are inverse -----

  function JoinPipes(pieces: seq<string>): string {
    if pieces == [] then [] else if |pieces| == 1 then pieces[0] else pieces[0] + PIPE + JoinPipes(pieces[1..])
  }

  /** Cut at the leftmost pipe outside quotes, every time. */
  ghost predicate LeftmostCuts(pieces: seq<string>) {
    && pieces != []
    && (forall k :: 0 <= k < |pieces| - 1 ==> FirstPipe(pieces[k] + PIPE, Out) == Some(|pieces[k]|))
    && FirstPipe(pieces[|pieces| - 1], Out).None?
  }

  /** Where the first pipe is does not depend on what follows it. */
  lemma {:induction false} PipeBefore(s: string, more: string, q: Quoting)
    ensures FirstPipe(s, q).Some? ==> FirstPipe(s + more, q) == FirstPipe(s, q)
    decreases |s|
  {
    if s != [] && !(q == Out && StartsWithPipe(s)) {
      assert (s + more)[1..] == s[1..] + more;
      PipeBefore(s[1..], more, Next(q, s[0]));
      if q == Out && StartsWithPipe(s + more) && |s| < 3 {
        ShortHasNone(s[1..], Next(q, s[0]));
      } else {
        assert |s| >= 3 ==> (s + more)[..3] == s[..3];
      }
    }
  }

  lemma ShortHasNone(s: string, q: Quoting)
    requires |s| < 3
    ensures FirstPipe(s, q).None?
  {}

  /** Up to the first pipe nothing that follows matters. */
  lemma PipeIsWhereCut(s: string, at: nat)
    requires FirstPipe(s, Out) == Some(at)
    ensures FirstPipe(s[..at] + PIPE, Out) == Some(at)
  {
    PipeOfPrefix(s, at, Out);
    assert s[at..][..3] == PIPE;
    assert s[..at + 3] == s[..at] + PIPE;
  }

  lemma {:induction false} PipeOfPrefix(s: string, at: nat, q: Quoting)
    requires FirstPipe(s, q) == Some(at)
    ensures FirstPipe(s[..at + 3], q) == Some(at)
    decreases |s|
  {
    if at == 0 {
      assert q == Out && StartsWithPipe(s);
    } else {
      assert s[..at + 3][1..] == s[1..][..at - 1 + 3];
      PipeOfPrefix(s[1..], at - 1, Next(q, s[0]));
      assert s[..at + 3][..3] == s[..3];
    }
  }

  /** The pieces joined again are the command. */
  lemma {:induction false} JoinOfPieces(s: string)
    ensures JoinPipes(Pieces(s)) == s && LeftmostCuts(Pieces(s))
    decreases |s|
  {
    var at := FirstPipe(s, Out);
    if at.Some? {
      var head, rest := s[..at.value], s[at.value + 3..];
      JoinOfPieces(rest);
      PipeIsWhereCut(s, at.value);
      assert s == head + PIPE + rest by { assert s[at.value..][..3] == PIPE; }
      OneMoreCut(head, Pieces(rest), rest);
    }
  }

  lemma OneMoreCut(head: string, more: seq<string>, rest: string)
    requires LeftmostCuts(more) && JoinPipes(more) == rest && FirstPipe(head + PIPE, Out) == Some(|head|)
    ensures LeftmostCuts([head] + more) && JoinPipes([head] + more) == head + PIPE + rest
  {
    var pieces := [head] + more;
    assert pieces[1..] == more;
    assert forall k :: 1 <= k < |pieces| ==> pieces[k] == more[k - 1];
  }

  /** And no other pieces cut at leftmost pipes outside quotes join to the command. */
  lemma {:induction false} PiecesOfJoin(pieces: seq<string>)
    requires LeftmostCuts(pieces)
    ensures Pieces(JoinPipes(pieces)) == pieces
  {
    if |pieces| > 1 {
      var head, more := pieces[0], pieces[1..];
      var s := JoinPipes(pieces);
      PipeBefore(head + PIPE, JoinPipes(more), Out);
      assert s[..|head|] == head && s[|head| + 3..] == JoinPipes(more);
      assert forall k :: 0 <= k < |more| ==> more[k] == pieces[k + 1];
      PiecesOfJoin(more);
    }
  }

  // ----- reading a modifier -----

  /** Which lines a pattern matches: a regular expression, or the text itself when it is
      none. */
  type Matcher = (string, string) -> bool

  datatype Modifier = Count | Last(n: nat) | Match(pattern: string) | Except(pattern: string) | Other

  function ToLower(s: string): string {
    seq(|s|, i requires 0 <= i < |s| => if 'A' <= s[i] <= 'Z' then (s[i] as int + 32) as char else s[i])
  }

  function SplitFirstWord(s: string): (string, string) {
    var trimmed := Trim(s);
    var n := FirstWhitespace(trimmed);
    (trimmed[..n], Trim(trimmed[n..]))
  }

  function StripQuotes(s: string): string { Unquoted(Trim(s)) }

  function Unquoted(s: string): string {
    if |s| >= 2 && s[0] == s[|s| - 1] && (s[0] == '"' || s[0] == '\'') then s[1..|s| - 1] else s
  }

  function DigitValue(c: char): nat
    requires IsDigit(c)
  {
    c as int - '0' as int
  }

  function DigitsValue(s: string): (n: nat)
    requires forall c <- s :: IsDigit(c)
  {
    if s == [] then 0
    else
      assert s[|s| - 1] in s && forall c <- s[..|s| - 1] :: c in s;
      10 * DigitsValue(s[..|s| - 1]) + DigitValue(s[|s| - 1])
  }

  /** Parsing an unsigned 64-bit number, a leading plus allowed. */
  function ParseUsize(s: string): Option<nat> {
    var digits := if "+" <= s then s[1..] else s;
    if digits == [] || (exists c <- digits :: !IsDigit(c)) then None
    else if DigitsValue(digits) > MAX_U64 then None
    else Some(DigitsValue(digits))
  }

  lemma {:induction false} DigitsReadBack(n: nat)
    ensures (forall c :: c in Digits(n) ==> IsDigit(c)) && DigitsValue(Digits(n)) == n
  {
    if n >= 10 {
      DigitsReadBack(n / 10);
      assert Digits(n)[..|Digits(n)| - 1] == Digits(n / 10);
    } else {
      assert Digits(n)[..0] == [];
    }
  }

  /** A count written out is read as itself, and one that is too large is not read. */
  lemma CountsReadBack(n: nat)
    ensures ParseUsize(Digits(n)) == if n <= MAX_U64 then Some(n) else None
    ensures ParseUsize("+" + Digits(n)) == ParseUsize(Digits(n))
  {
    DigitsReadBack(n);
    assert Digits(n)[0] in Digits(n) && !IsDigit('+');
    assert ("+" + Digits(n))[1..] == Digits(n);
  }

  function Read(segment: string): Modifier {
    var (word, remainder) := SplitFirstWord(ToLower(segment));
    var pattern := StripQuotes(SplitFirstWord(segment).1);
    if word == "count" then Count
    else if word == "last" then
      var n := ParseUsize(Trim(remainder));
      if n.Some? then Last(n.value) else Other
    else if word == "match" && remainder != [] then Match(pattern)
    else if word == "except" && remainder != [] then Except(pattern)
    else Other
  }

  // ----- a modifier over text -----

  function Filter(ls: seq<string>, keep: string -> bool): seq<string> {
    if ls == [] then [] else (if keep(ls[0]) then [ls[0]] else []) + Filter(ls[1..], keep)
  }

  function LastLines(ls: seq<string>, n: nat): seq<string> { if |ls| <= n then ls else ls[|ls| - n..] }

  function CountLine(n: nat): string { "Count: " + Digits(n) + " lines" }

  function Ended(ls: seq<string>): string { if ls == [] then [] else Join(ls) + "\n" }

  function OnText(m: Modifier, text: string, matches: Matcher): string {
    match m
    case Count => CountLine(|Lines(text)|) + "\n"
    case Last(n) =>
      var joined := Join(LastLines(Lines(text), n));
      if joined == [] then [] else joined + "\n"
    case Match(pattern) => Ended(Filter(Lines(text), l => matches(pattern, l)))
    case Except(pattern) => Ended(Filter(Lines(text), l => !matches(pattern, l)))
    case Other => text
  }

  /** The chain, the leftmost modifier first. */
  function TextAfter(ms: seq<Modifier>, text: string, matches: Matcher): string {
    if ms == [] then text else OnText(ms[|ms| - 1], TextAfter(ms[..|ms| - 1], text, matches), matches)
  }

  function Modifiers(command: string): seq<Modifier> {
    var segments := Segments(command);
    if |segments| < 2 then [] else ReadEach(Read, segments[1..])
  }

  function ReadEach(read: string -> Modifier, segments: seq<string>): seq<Modifier> {
    seq(|segments|, k requires 0 <= k < |segments| => read(segments[k]))
  }

  method ApplyPipeModifiers(command: string, raw: string, matches: Matcher) returns (out: string)
    ensures out == TextAfter(Modifiers(command), raw, matches)
  {
    var segments := SplitPipes(command);
    if |segments| < 2 { return raw; }
    out := ApplyChain(Read, segments[1..], raw, matches);
  }

  method ApplyChain(read: string -> Modifier, segments: seq<string>, raw: string, matches: Matcher)
    returns (out: string)
    ensures out == TextAfter(ReadEach(read, segments), raw, matches)
  {
    out := raw;
    ghost var ms := ReadEach(read, segments);
    for k := 0 to |segments|
      invariant out == TextAfter(ms[..k], raw, matches)
    {
      assert ms[..k + 1][..k] == ms[..k];
      var m := read(segments[k]);
      if m != Other {
        out := OnText(m, out, matches);
      }
    }
    assert ms[..|segments|] == ms;
  }

  method ProcessOutput(command: string, raw: string, maxLines: Option<nat>, maxBytes: Option<nat>, tail: bool,
                       matches: Matcher)
    returns (out: string)
    ensures var piped := TextAfter(Modifiers(command), raw, matches);
            var capped := if maxLines.None? then piped else LineCapped(piped, maxLines.value, tail);
            if maxBytes.None? then out == capped else ByteCapped(capped, maxBytes.value, tail, out)
  {
    var piped := ApplyPipeModifiers(command, raw, matches);
    var lineCapped := ApplyLineCap(piped, maxLines, tail);
    out := ApplyByteCap(lineCapped, maxBytes, tail);
  }

  // ----- the chain over lines -----

  function OnLines(m: Modifier, ls: seq<string>, matches: Matcher): seq<string> {
    match m
    case Count => [CountLine(|ls|)]
    case Last(n) => LastLines(ls, n)
    case Match(pattern) => Filter(ls, l => matches(pattern, l))
    case Except(pattern) => Filter(ls, l => !matches(pattern, l))
    case Other => ls
  }

  function LinesAfter(ms: seq<Modifier>, ls: seq<string>, matches: Matcher): seq<string> {
    if ms == [] then ls else OnLines(ms[|ms| - 1], LinesAfter(ms[..|ms| - 1], ls, matches), matches)
  }

  /** A `last` in the chain is left with one blank line. */
  predicate BlankLast(ms: seq<Modifier>, ls: seq<string>, matches: Matcher) {
    exists k | 0 <= k < |ms| :: ms[k].Last? && LinesAfter(ms[..k + 1], ls, matches) == [""]
  }

  predicate AllLines(ls: seq<string>) { forall l <- ls :: IsLine(l) }

  lemma {:induction false} FilterKeeps(ls: seq<string>, keep: string -> bool)
    ensures forall l :: l in Filter(ls, keep) <==> l in ls && keep(l)
  {
    if ls != [] {
      FilterKeeps(ls[1..], keep);
    }
  }

  lemma CountLineIsLine(n: nat)
    ensures IsLine(CountLine(n))
  {
    DigitsAreNarrow(n);
    var l := CountLine(n);
    assert '\n' !in "Count: " && '\n' !in " lines" && l[|l| - 1] == 's';
  }

  lemma OnLinesKeepsLines(m: Modifier, ls: seq<string>, matches: Matcher)
    requires AllLines(ls)
    ensures AllLines(OnLines(m, ls, matches))
  {
    match m
    case Count => CountLineIsLine(|ls|);
    case Last(_) =>
    case Match(pattern) => FilterKeeps(ls, l => matches(pattern, l));
    case Except(pattern) => FilterKeeps(ls, l => !matches(pattern, l));
    case Other =>
  }

  /** What the loop does to the lines: a `last` left with one blank line gives the empty
      text, and every line written again loses a carriage return at its end. */
  function Rewritten(m: Modifier, ls: seq<string>, matches: Matcher): seq<string> {
    var now := OnLines(m, ls, matches);
    if m.Other? then ls
    else if m.Last? && now == [""] then []
    else Each(StripCr, now)
  }

  function RewrittenAfter(ms: seq<Modifier>, ls: seq<string>, matches: Matcher): seq<string> {
    if ms == [] then ls else Rewritten(ms[|ms| - 1], RewrittenAfter(ms[..|ms| - 1], ls, matches), matches)
  }

  lemma LinesOfEnded(ls: seq<string>)
    requires NewlineFree(ls)
    ensures Lines(Ended(ls)) == Each(StripCr, ls)
  {
    if ls != [] {
      UnlinesOfJoin(ls);
    }
    LinesOfWritten(ls);
  }

  lemma JoinIsEmpty(ls: seq<string>)
    ensures Join(ls) == [] <==> ls == [] || ls == [""]
  {}

  /** One modifier over any text does exactly this to its lines. */
  lemma TextStepIsLineStep(m: Modifier, text: string, matches: Matcher)
    ensures Lines(OnText(m, text, matches)) == Rewritten(m, Lines(text), matches)
  {
    var ls := Lines(text);
    LinesHaveNoNewline(text);
    match m
    case Count =>
      CountLineIsLine(|ls|);
      LinesCons(CountLine(|ls|), []);
      assert CountLine(|ls|) + "\n" + [] == CountLine(|ls|) + "\n";
    case Last(n) =>
      JoinIsEmpty(LastLines(ls, n));
      LinesOfEnded(LastLines(ls, n));
    case Match(pattern) =>
      FilterKeeps(ls, l => matches(pattern, l));
      LinesOfEnded(Filter(ls, l => matches(pattern, l)));
    case Except(pattern) =>
      FilterKeeps(ls, l => !matches(pattern, l));
      LinesOfEnded(Filter(ls, l => !matches(pattern, l)));
    case Other =>
  }

  /** And so does a whole chain, for every text and every notion of a match. */
  lemma {:induction false} ChainOverLines(ms: seq<Modifier>, text: string, matches: Matcher)
    ensures Lines(TextAfter(ms, text, matches)) == RewrittenAfter(ms, Lines(text), matches)
  {
    if ms != [] {
      var earlier := ms[..|ms| - 1];
      ChainOverLines(earlier, text, matches);
      TextStepIsLineStep(ms[|ms| - 1], TextAfter(earlier, text, matches), matches);
    }
  }

  /** On lines without a carriage return at the end only a blank line can be lost. */
  lemma RewrittenLines(m: Modifier, ls: seq<string>, matches: Matcher)
    requires AllLines(ls)
    ensures AllLines(OnLines(m, ls, matches))
    ensures var now := OnLines(m, ls, matches);
            Rewritten(m, ls, matches) == if m.Last? && now == [""] then [] else now
  {
    OnLinesKeepsLines(m, ls, matches);
    var now := OnLines(m, ls, matches);
    assert Each(StripCr, now) == now by {
      forall k | 0 <= k < |now| ensures StripCr(now[k]) == now[k] { assert now[k] in now; }
    }
  }

  /** The text loop refines the fold over lines, for every chain of modifiers and every
      notion of a match, as long as no line ends in a carriage return and no `last` is
      left with one blank line. */
  lemma {:induction false} ChainRefinesFold(ms: seq<Modifier>, text: string, matches: Matcher)
    requires AllLines(Lines(text)) && !BlankLast(ms, Lines(text), matches)
    ensures Lines(TextAfter(ms, text, matches)) == LinesAfter(ms, Lines(text), matches)
    ensures AllLines(LinesAfter(ms, Lines(text), matches))
    decreases |ms|
  {
    if ms != [] {
      var earlier, m := ms[..|ms| - 1], ms[|ms| - 1];
      var ls := Lines(text);
      if BlankLast(earlier, ls, matches) { EarlierBlankLast(ms, |ms| - 1, ls, matches); }
      ChainRefinesFold(earlier, text, matches);
      assert ms[..|ms| - 1 + 1] == ms;
      TextStepIsLineStep(m, TextAfter(earlier, text, matches), matches);
      RewrittenLines(m, LinesAfter(earlier, ls, matches), matches);
    }
  }

  lemma EarlierBlankLast(ms: seq<Modifier>, n: nat, ls: seq<string>, matches: Matcher)
    requires n <= |ms| && BlankLast(ms[..n], ls, matches)
    ensures BlankLast(ms, ls, matches)
  {
    var k :| 0 <= k < n && ms[..n][k].Last? && LinesAfter(ms[..n][..k + 1], ls, matches) == [""];
    assert ms[..n][..k + 1] == ms[..k + 1] && ms[..n][k] == ms[k];
  }

  /** The two agree after every modifier of the chain. */
  ghost predicate AgreeThroughout(ms: seq<Modifier>, text: string, matches: Matcher) {
    forall k | 0 <= k <= |ms| :: Lines(TextAfter(ms[..k], text, matches)) == LinesAfter(ms[..k], Lines(text), matches)
  }

  /** They do exactly when no `last` is left with one blank line. */
  lemma AgreeExactlyWhen(ms: seq<Modifier>, text: string, matches: Matcher)
    requires AllLines(Lines(text))
    ensures AgreeThroughout(ms, text, matches) <==> !BlankLast(ms, Lines(text), matches)
  {
    var ls := Lines(text);
    if BlankLast(ms, ls, matches) {
      var k :| 0 <= k < |ms| && ms[k].Last? && LinesAfter(ms[..k + 1], ls, matches) == [""];
      assert ms[..k + 1][..k] == ms[..k];
      TextStepIsLineStep(ms[k], TextAfter(ms[..k], text, matches), matches);
      assert Lines(TextAfter(ms[..k], text, matches)) == LinesAfter(ms[..k], ls, matches) ==>
          Lines(TextAfter(ms[..k + 1], text, matches)) == [];
    } else {
      forall k | 0 <= k <= |ms|
        ensures Lines(TextAfter(ms[..k], text, matches)) == LinesAfter(ms[..k], ls, matches)
      {
        if BlankLast(ms[..k], ls, matches) { EarlierBlankLast(ms, k, ls, matches); }
        ChainRefinesFold(ms[..k], text, matches);
      }
    }
  }

  /** A single `last`: there the condition is about what it leaves. */
  lemma LastBlankLineIsLost(text: string, n: nat, matches: Matcher)
    requires AllLines(Lines(text))
    ensures Lines(TextAfter([Last(n)], text, matches)) == LinesAfter([Last(n)], Lines(text), matches)
       <==> LastLines(Lines(text), n) != [""]
  {
    assert [Last(n)][..0] == [];
    TextStepIsLineStep(Last(n), text, matches);
    RewrittenLines(Last(n), Lines(text), matches);
  }

  /** Such a text: one blank line, of which the last line is kept by the fold and lost by
      the loop. */
  lemma OneBlankLine(matches: Matcher)
    ensures Lines(TextAfter([Last(1)], "\n", matches)) == []
    ensures LinesAfter([Last(1)], Lines("\n"), matches) == [""]
  {
    LinesCons("", "");
    assert "" + "\n" + "" == "\n";
    assert Lines("\n") == [""] && [Last(1)][..0] == [];
    TextStepIsLineStep(Last(1), "\n", matches);
  }

  // ----- what a written modifier is read as -----

  /** Whitespace only. */
  predicate Blanks(s: string) { forall i | 0 <= i < |s| :: IsWhitespace(s[i]) }

  /** A word: some characters, none of them whitespace. */
  predicate IsWord(s: string) { s != [] && forall i | 0 <= i < |s| :: !IsWhitespace(s[i]) }

  /** No whitespace at either end. */
  predicate NoOuterBlanks(s: string) { s != [] ==> !IsWhitespace(s[0]) && !IsWhitespace(s[|s| - 1]) }

  /** A segment as it is written: a word and an argument, or none, with whitespace around
      and between them. */
  ghost predicate Reads(s: string, word: string, arg: string) {
    exists lead, gap, trail :: Shaped(s, lead, word, gap, arg, trail)
  }

  ghost predicate Shaped(s: string, lead: string, word: string, gap: string, arg: string, trail: string) {
    && s == lead + (word + (gap + arg)) + trail
    && Blanks(lead) && IsWord(word) && Blanks(gap) && Blanks(trail) && NoOuterBlanks(arg)
    && (arg != [] <==> gap != [])
  }

  /** The same word but for the case of ASCII letters; `lower` has none in upper case. */
  predicate IgnoringCase(word: string, lower: string) {
    |word| == |lower| && forall i | 0 <= i < |word| :: SameLetter(word[i], lower[i])
  }

  predicate SameLetter(c: char, lower: char) {
    c == lower || ('A' <= c <= 'Z' && c as int - 'A' as int == lower as int - 'a' as int)
  }

  predicate IsLower(s: string) { forall i | 0 <= i < |s| :: !('A' <= s[i] <= 'Z') }

  lemma TrimOf(s: string, lead: string, inside: string, trail: string)
    requires s == lead + inside + trail && Blanks(lead) && Blanks(trail) && NoOuterBlanks(inside)
    ensures Trim(s) == inside
  {
    var i, j := TrimIsTheInside(s);
    InsideIs(s, lead, inside, trail, i, j);
  }

  lemma InsideIs(s: string, lead: string, inside: string, trail: string, i: nat, j: nat)
    requires s == lead + inside + trail && Blanks(lead) && Blanks(trail) && NoOuterBlanks(inside)
    requires i <= j <= |s| && (forall k :: 0 <= k < i || j <= k < |s| ==> IsWhitespace(s[k]))
    requires i < j ==> !IsWhitespace(s[i]) && !IsWhitespace(s[j - 1])
    ensures s[i..j] == inside
  {
    assert forall k :: 0 <= k < |lead| ==> s[k] == lead[k];
    assert forall k :: 0 <= k < |inside| ==> s[|lead| + k] == inside[k];
    assert forall k :: 0 <= k < |trail| ==> s[|lead| + |inside| + k] == trail[k];
    if inside == [] {
      assert forall k :: 0 <= k < |s| ==> IsWhitespace(s[k]);
    } else {
      assert s[|lead|] == inside[0] && s[|lead| + |inside| - 1] == inside[|inside| - 1];
      assert i == |lead| && j == |lead| + |inside|;
    }
  }

  lemma TrimItself(s: string)
    requires NoOuterBlanks(s)
    ensures Trim(s) == s
  {
    var none: string := [];
    assert s == none + s + none;
    TrimOf(s, none, s, none);
  }

  lemma FirstWordOf(s: string, word: string, rest: string)
    requires s == word + rest && IsWord(word) && (rest != [] ==> IsWhitespace(rest[0]))
    ensures FirstWhitespace(s) == |word| && s[..|word|] == word && s[|word|..] == rest
  {
    assert forall k :: 0 <= k < |word| ==> s[k] == word[k];
    assert rest != [] ==> s[|word|] == rest[0];
  }

  lemma ShapeInside(word: string, gap: string, arg: string)
    requires IsWord(word) && Blanks(gap) && NoOuterBlanks(arg) && (arg != [] <==> gap != [])
    ensures NoOuterBlanks(word + (gap + arg)) && (gap + arg != [] ==> IsWhitespace((gap + arg)[0]))
  {
    var s := word + (gap + arg);
    assert s[0] == word[0];
    assert s[|s| - 1] == if arg != [] then arg[|arg| - 1] else word[|word| - 1];
    assert gap != [] ==> (gap + arg)[0] == gap[0];
  }

  /** The word and the argument are what the segment is split into. */
  lemma SplitOfShape(s: string, word: string, arg: string)
    requires Reads(s, word, arg)
    ensures SplitFirstWord(s) == (word, arg)
  {
    var lead, gap, trail :| Shaped(s, lead, word, gap, arg, trail);
    var rest := gap + arg;
    ShapeInside(word, gap, arg);
    assert Trim(s) == word + rest by { TrimOf(s, lead, word + rest, trail); }
    assert Trim(rest) == arg by { TrimBehind(rest, gap, arg); }
    SplitTrimmed(s, word, rest);
  }

  lemma TrimBehind(s: string, gap: string, arg: string)
    requires s == gap + arg && Blanks(gap) && NoOuterBlanks(arg)
    ensures Trim(s) == arg
  {
    var none: string := [];
    assert s == gap + arg + none;
    TrimOf(s, gap, arg, none);
  }

  lemma SplitTrimmed(s: string, word: string, rest: string)
    requires Trim(s) == word + rest && IsWord(word) && (rest != [] ==> IsWhitespace(rest[0]))
    ensures SplitFirstWord(s) == (word, Trim(rest))
  {
    FirstWordOf(Trim(s), word, rest);
  }

  lemma TrimmedReads(s: string, word: string, arg: string)
    requires Reads(s, word, arg)
    ensures Reads(Trim(s), word, arg)
  {
    var lead, gap, trail :| Shaped(s, lead, word, gap, arg, trail);
    ShapeInside(word, gap, arg);
    TrimOf(s, lead, word + (gap + arg), trail);
    var inside := word + (gap + arg);
    assert inside == [] + inside + [];
    assert Shaped(Trim(s), [], word, gap, arg, []);
  }

  lemma LowerOfShape(s: string, word: string, arg: string)
    requires Reads(s, word, arg)
    ensures Reads(ToLower(s), ToLower(word), ToLower(arg))
  {
    var lead, gap, trail :| Shaped(s, lead, word, gap, arg, trail);
    LowerOfBlanks(lead);
    LowerOfBlanks(gap);
    LowerOfBlanks(trail);
    LowerJoin(gap, arg);
    LowerJoin(word, gap + arg);
    LowerJoin(lead, word + (gap + arg));
    LowerJoin(lead + (word + (gap + arg)), trail);
    assert Shaped(ToLower(s), lead, ToLower(word), gap, ToLower(arg), trail);
  }

  lemma LowerOfBlanks(s: string)
    requires Blanks(s)
    ensures ToLower(s) == s
  {}

  lemma LowerJoin(a: string, b: string)
    ensures ToLower(a + b) == ToLower(a) + ToLower(b)
  {}

  lemma LowerIsIgnoringCase(word: string, lower: string)
    requires IsLower(lower)
    ensures ToLower(word) == lower <==> IgnoringCase(word, lower)
  {
    if |word| == |lower| {
      forall i | 0 <= i < |word| ensures ToLower(word)[i] == lower[i] <==> SameLetter(word[i], lower[i]) {
        assert !('A' <= lower[i] <= 'Z');
      }
    }
  }

  /** A number is read the same in lower case: a letter is no digit in either. */
  lemma ParseOfLower(s: string)
    ensures ParseUsize(ToLower(s)) == ParseUsize(s)
  {
    var t := ToLower(s);
    PlusIsFirst(s);
    PlusIsFirst(t);
    var d, d' := if "+" <= s then s[1..] else s, if "+" <= t then t[1..] else t;
    assert d' == ToLower(d);
    if exists c <- d :: !IsDigit(c) {
      var k :| 0 <= k < |d| && !IsDigit(d[k]);
      assert d'[k] in d' && !IsDigit(d'[k]);
    } else {
      forall k | 0 <= k < |d| ensures d'[k] == d[k] {
        assert d[k] in d;
      }
      assert d' == d;
    }
  }

  lemma PlusIsFirst(s: string)
    ensures "+" <= s <==> s != [] && s[0] == '+'
  {
    assert "+"[0] == '+';
  }

  /** The four words in any case, and that they are four. */
  lemma Words(word: string)
    ensures IgnoringCase(word, "count") <==> ToLower(word) == "count"
    ensures IgnoringCase(word, "last") <==> ToLower(word) == "last"
    ensures IgnoringCase(word, "match") <==> ToLower(word) == "match"
    ensures IgnoringCase(word, "except") <==> ToLower(word) == "except"
    ensures IgnoringCase(word, "count") ==> !IgnoringCase(word, "match")
  {
    LowerIsIgnoringCase(word, "count");
    LowerIsIgnoringCase(word, "last");
    LowerIsIgnoringCase(word, "match");
    LowerIsIgnoringCase(word, "except");
    assert "count"[0] == 'c' && "match"[0] == 'm';
  }

  /** Every segment, read: the word decides, in any case, and the argument keeps its own. */
  lemma ReadOfShape(s: string, word: string, arg: string)
    requires Reads(s, word, arg)
    ensures Read(s) == if IgnoringCase(word, "count") then Count
                       else if IgnoringCase(word, "last") && ParseUsize(arg).Some? then Last(ParseUsize(arg).value)
                       else if IgnoringCase(word, "match") && arg != [] then Match(StripQuotes(arg))
                       else if IgnoringCase(word, "except") && arg != [] then Except(StripQuotes(arg))
                       else Other
  {
    SplitOfShape(s, word, arg);
    LowerOfShape(s, word, arg);
    SplitOfShape(ToLower(s), ToLower(word), ToLower(arg));
    TrimmedArgument(s, word, arg);
    Words(word);
    ParseOfLower(arg);
    assert |"last"| == 4 && |"count"| == 5 && |"match"| == 5 && |"except"| == 6;
  }

  lemma TrimmedArgument(s: string, word: string, arg: string)
    requires Reads(s, word, arg)
    ensures Trim(ToLower(arg)) == ToLower(arg)
  {
    var a := ToLower(arg);
    assert NoOuterBlanks(a);
    TrimItself(a);
  }

  /** A segment reads as some word and argument unless there is nothing in it. */
  lemma AnyShape(s: string) returns (word: string, arg: string)
    requires HasText(s)
    ensures Reads(s, word, arg)
  {
    var i, j := TrimIsTheInside(s);
    word, arg := ShapeFrom(s, i, j);
  }

  lemma ShapeFrom(s: string, i: nat, j: nat) returns (word: string, arg: string)
    requires i < j <= |s| && (forall k :: 0 <= k < i || j <= k < |s| ==> IsWhitespace(s[k]))
    requires !IsWhitespace(s[i]) && !IsWhitespace(s[j - 1])
    ensures Reads(s, word, arg)
  {
    var inside := s[i..j];
    var n := FirstWhitespace(inside);
    word := inside[..n];
    var rest := inside[n..];
    assert inside[0] == s[i] && inside[|inside| - 1] == s[j - 1];
    assert rest != [] ==> rest[|rest| - 1] == inside[|inside| - 1] && rest[0] == inside[n];
    var k := BlanksInFront(rest);
    arg := rest[k..];
    assert s == s[..i] + inside + s[j..];
    ShapeOfCuts(s, s[..i], inside, s[j..], word, rest, k);
  }

  lemma BlanksInFront(rest: string) returns (k: nat)
    requires rest != [] ==> !IsWhitespace(rest[|rest| - 1])
    ensures k <= |rest| && (forall i :: 0 <= i < k ==> IsWhitespace(rest[i])) && (rest != [] ==> k < |rest| && !IsWhitespace(rest[k]))
  {
    k := 0;
    while k < |rest| && IsWhitespace(rest[k])
      invariant k <= |rest| && forall i :: 0 <= i < k ==> IsWhitespace(rest[i])
    {
      k := k + 1;
    }
  }

  lemma ShapeOfCuts(s: string, lead: string, inside: string, trail: string, word: string, rest: string, k: nat)
    requires s == lead + inside + trail && Blanks(lead) && Blanks(trail)
    requires inside == word + rest && IsWord(word)
    requires rest != [] ==> IsWhitespace(rest[0]) && !IsWhitespace(rest[|rest| - 1])
    requires k <= |rest| && (forall i :: 0 <= i < k ==> IsWhitespace(rest[i])) && (rest != [] ==> k < |rest| && !IsWhitespace(rest[k]))
    ensures Reads(s, word, rest[k..])
  {
    var gap, arg := rest[..k], rest[k..];
    assert rest == gap + arg;
    assert arg != [] ==> arg[0] == rest[k] && arg[|arg| - 1] == rest[|rest| - 1];
    assert Shaped(s, lead, word, gap, arg, trail);
  }

  /** A pattern in quotes loses them, once; any other is taken as it is. */
  lemma QuotesComeOff(arg: string, p: string, quote: char)
    requires (quote == '"' || quote == '\'') && arg == [quote] + p + [quote]
    ensures StripQuotes(arg) == p && NoOuterBlanks(arg)
  {
    assert arg[0] == quote && arg[|arg| - 1] == quote && !IsWhitespace(quote) && arg[1..|arg| - 1] == p;
    TrimItself(arg);
  }

  predicate InQuotes(p: string) { |p| >= 2 && p[0] == p[|p| - 1] && (p[0] == '"' || p[0] == '\'') }

  lemma PlainPatternStays(p: string)
    requires NoOuterBlanks(p) && !InQuotes(p)
    ensures StripQuotes(p) == p
  {
    NotUnquoted(p);
    assert Trim(p) == p by { TrimItself(p); }
  }

  lemma NotUnquoted(p: string)
    requires !InQuotes(p)
    ensures Unquoted(p) == p
  {}

  // ----- a written command -----

  /** All pieces but the first, and but an empty last one. */
  function Behind(pieces: seq<string>): seq<string>
    requires |pieces| >= 2
  {
    if pieces[|pieces| - 1] == [] then pieces[1..|pieces| - 1] else pieces[1..]
  }

  /** The modifiers of a command cut at its pipes are its pieces behind the first, read. */
  lemma ModifiersOfWritten(pieces: seq<string>)
    requires LeftmostCuts(pieces) && |pieces| >= 2
    ensures Modifiers(JoinPipes(pieces)) == ReadEach(Read, Each(Trim, Behind(pieces)))
  {
    PiecesOfJoin(pieces);
    SegmentsOfPieces(Trim, pieces, Segments(JoinPipes(pieces)));
    NoneRead(Read, Trim);
  }

  lemma NoneRead(read: string -> Modifier, trim: string -> string)
    ensures ReadEach(read, Each(trim, [])) == []
  {}

  lemma SegmentsOfPieces(trim: string -> string, pieces: seq<string>, segments: seq<string>)
    requires |pieces| >= 2 && segments == Each(trim, pieces[..Kept(pieces)])
    ensures |segments| == 1 + |Behind(pieces)| && segments[1..] == Each(trim, Behind(pieces))
  {}

  /** A command with one modifier behind its only pipe. */
  ghost predicate WrittenWith(command: string, base: string, segment: string) {
    && command == base + PIPE + segment
    && FirstPipe(base + PIPE, Out) == Some(|base|) && FirstPipe(segment, Out).None?
  }

  lemma OneModifier(command: string, base: string, segment: string, word: string, arg: string)
    requires WrittenWith(command, base, segment) && Reads(segment, word, arg)
    ensures Modifiers(command) == [Read(Trim(segment))]
  {
    SomeText(segment, word, arg);
    var pieces := TwoPieces(command, base, segment);
    ModifiersOfWritten(pieces);
    ReadOne(Read, Trim, segment);
  }

  lemma TwoPieces(command: string, base: string, segment: string) returns (pieces: seq<string>)
    requires WrittenWith(command, base, segment)
    ensures LeftmostCuts(pieces) && JoinPipes(pieces) == command
    ensures |pieces| == 2 && (segment != [] ==> Behind(pieces) == [segment])
  {
    pieces := [base, segment];
    assert pieces[1..] == [segment];
    JoinTwo(base, segment);
  }

  lemma ReadOne(read: string -> Modifier, trim: string -> string, segment: string)
    ensures ReadEach(read, Each(trim, [segment])) == [read(trim(segment))]
  {}

  lemma SomeText(s: string, word: string, arg: string)
    requires Reads(s, word, arg)
    ensures s != []
  {}

  lemma JoinTwo(a: string, b: string)
    ensures JoinPipes([a, b]) == a + PIPE + b
  {
    assert [a, b][1..] == [b];
  }

  /** The one modifier of such a command, by its word and argument. */
  lemma ReadsInCommand(command: string, base: string, segment: string, word: string, arg: string)
    requires WrittenWith(command, base, segment) && Reads(segment, word, arg)
    ensures IgnoringCase(word, "count") ==> Modifiers(command) == [Count]
    ensures IgnoringCase(word, "last") && ParseUsize(arg).Some? ==> Modifiers(command) == [Last(ParseUsize(arg).value)]
    ensures IgnoringCase(word, "match") && arg != [] ==> Modifiers(command) == [Match(StripQuotes(arg))]
    ensures IgnoringCase(word, "except") && arg != [] ==> Modifiers(command) == [Except(StripQuotes(arg))]
  {
    OneModifier(command, base, segment, word, arg);
    TrimmedReads(segment, word, arg);
    ReadOfShape(Trim(segment), word, arg);
    Words(word);
    assert |"last"| == 4 && |"count"| == 5 && |"match"| == 5 && |"except"| == 6;
  }

  lemma {:induction false} FilterSnoc(ls: seq<string>, l: string, keep: string -> bool)
    ensures Filter(ls + [l], keep) == Filter(ls, keep) + if keep(l) then [l] else []
  {
    if ls == [] {
      assert ls + [l] == [l] && [l][1..] == [];
    } else {
      assert (ls + [l])[1..] == ls[1..] + [l];
      FilterSnoc(ls[1..], l, keep);
    }
  }

  /** A filter keeps the lines at exactly the places where it matches, in order. */
  lemma {:induction false} FilterIsThePlaces(ls: seq<string>, keep: string -> bool, ps: seq<nat>)
    requires Places(ls, keep, ps)
    ensures |Filter(ls, keep)| == |ps| && forall i :: 0 <= i < |ps| ==> Filter(ls, keep)[i] == ls[ps[i]]
  {
    if ls == [] {
      assert ps == [];
    } else {
      var before, l := ls[..|ls| - 1], ls[|ls| - 1];
      assert ls == before + [l];
      FilterSnoc(before, l, keep);
      if keep(l) {
        LastIsOne(before, l, keep, ps);
        FilterIsThePlaces(before, keep, ps[..|ps| - 1]);
      } else {
        LastIsNone(before, l, keep, ps);
        FilterIsThePlaces(before, keep, ps);
      }
    }
  }

  /** The lines of `out` are those of `ls` at these places, without a carriage return at
      their end. */
  ghost predicate LinesAt(out: seq<string>, ls: seq<string>, ps: seq<nat>)
    requires forall i :: 0 <= i < |ps| ==> ps[i] < |ls|
  {
    |out| == |ps| && forall i :: 0 <= i < |ps| ==> out[i] == StripCr(ls[ps[i]])
  }

  /** A command with a `match` shows the lines that match the pattern, in order, and no others. */
  lemma WrittenMatch(command: string, base: string, segment: string, word: string, arg: string,
                     raw: string, matches: Matcher, ps: seq<nat>)
    requires WrittenWith(command, base, segment) && Reads(segment, word, arg)
    requires IgnoringCase(word, "match") && arg != []
    requires Places(Lines(raw), l => matches(StripQuotes(arg), l), ps)
    ensures LinesAt(Lines(TextAfter(Modifiers(command), raw, matches)), Lines(raw), ps)
  {
    ReadsInCommand(command, base, segment, word, arg);
    FilteredLines(Match(StripQuotes(arg)), raw, matches, ps);
  }

  /** With an `except`, those that do not. */
  lemma WrittenExcept(command: string, base: string, segment: string, word: string, arg: string,
                      raw: string, matches: Matcher, ps: seq<nat>)
    requires WrittenWith(command, base, segment) && Reads(segment, word, arg)
    requires IgnoringCase(word, "except") && arg != []
    requires Places(Lines(raw), l => !matches(StripQuotes(arg), l), ps)
    ensures LinesAt(Lines(TextAfter(Modifiers(command), raw, matches)), Lines(raw), ps)
  {
    ReadsInCommand(command, base, segment, word, arg);
    FilteredLines(Except(StripQuotes(arg)), raw, matches, ps);
  }

  lemma FilteredLines(m: Modifier, raw: string, matches: Matcher, ps: seq<nat>)
    requires m.Match? || m.Except?
    requires m.Match? ==> Places(Lines(raw), l => matches(m.pattern, l), ps)
    requires m.Except? ==> Places(Lines(raw), l => !matches(m.pattern, l), ps)
    ensures LinesAt(Lines(TextAfter([m], raw, matches)), Lines(raw), ps)
  {
    AfterOne(m, raw, matches);
    if m.Match? {
      FilterIsThePlaces(Lines(raw), l => matches(m.pattern, l), ps);
    } else {
      FilterIsThePlaces(Lines(raw), l => !matches(m.pattern, l), ps);
    }
  }

  /** With a `count`, one line with their number. */
  lemma WrittenCount(command: string, base: string, segment: string, word: string, arg: string,
                     raw: string, matches: Matcher)
    requires WrittenWith(command, base, segment) && Reads(segment, word, arg) && IgnoringCase(word, "count")
    ensures TextAfter(Modifiers(command), raw, matches) == "Count: " + Digits(|Lines(raw)|) + " lines\n"
  {
    ReadsInCommand(command, base, segment, word, arg);
    AfterCount(raw, matches);
  }

  lemma AfterCount(raw: string, matches: Matcher)
    ensures TextAfter([Count], raw, matches) == "Count: " + Digits(|Lines(raw)|) + " lines\n"
  {
    assert [Count][..0] == [];
    assert " lines" + "\n" == " lines\n";
  }

  /** With a `last` and a number, that many lines from the end, or all if there are no more;
      a blank one that would be alone is lost. */
  lemma WrittenLast(command: string, base: string, segment: string, word: string, arg: string,
                    raw: string, matches: Matcher, n: nat)
    requires WrittenWith(command, base, segment) && Reads(segment, word, arg)
    requires IgnoringCase(word, "last") && ParseUsize(arg) == Some(n)
    ensures FromTheEnd(Lines(TextAfter(Modifiers(command), raw, matches)), Lines(raw), n)
  {
    ReadsInCommand(command, base, segment, word, arg);
    AfterOne(Last(n), raw, matches);
    LastFromTheEnd(Lines(raw), n, matches);
  }

  lemma LastFromTheEnd(ls: seq<string>, n: nat, matches: Matcher)
    ensures FromTheEnd(Rewritten(Last(n), ls, matches), ls, n)
  {
    var last := LastLines(ls, n);
    assert |last| == (if n < |ls| then n else |ls|) && forall i :: 0 <= i < |last| ==> last[i] == ls[|ls| - |last| + i];
    assert last == [""] <==> |last| == 1 && last[0] == "";
  }

  ghost predicate FromTheEnd(out: seq<string>, ls: seq<string>, n: nat) {
    var m := if n < |ls| then n else |ls|;
    if m == 1 && ls[|ls| - 1] == "" then out == []
    else |out| == m && forall i :: 0 <= i < m ==> out[i] == StripCr(ls[|ls| - m + i])
  }

  lemma AfterOne(m: Modifier, raw: string, matches: Matcher)
    ensures Lines(TextAfter([m], raw, matches)) == Rewritten(m, Lines(raw), matches)
  {
    assert [m][..0] == [];
    TextStepIsLineStep(m, raw, matches);
  }
}
