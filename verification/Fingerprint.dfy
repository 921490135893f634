/** The normal form a candidate configuration is fingerprinted by: attributes of the
    `junos` prefix go, and so do indentation and blank lines. Order stays. */
module Fingerprint {
  import opened Prelude
  import opened Text
  import opened PrefixStrip

  /** A text cut at its tags: what stands before a tag, what stands between its brackets,
      and the rest. A `<` that is never closed is no tag. */
  datatype Segments = Tail(text: string) | Segment(before: string, tag: string, next: Segments)

  function Cut(xml: string): Segments
    decreases |xml|
  {
    var a := FindChar(xml, '<');
    if a.None? then Tail(xml)
    else
      var rest := xml[a.value..];
      var b := FindChar(rest, '>');
      assert rest[0] == '<';
      if b.None? then Tail(xml) else Segment(xml[..a.value], rest[1..b.value], Cut(rest[b.value + 1..]))
  }

  function Written(s: Segments): string {
    match s
    case Tail(text) => text
    case Segment(before, tag, next) => Piece(before, tag) + Written(next)
  }

  function Piece(before: string, tag: string): string { before + "<" + tag + ">" }

  /** Closing tags, comments, declarations and CDATA are left alone. */
  predicate IsOpening(tag: string) { !("/" <= tag) && !("!" <= tag) && !("?" <= tag) }

  function StrippedTag(tag: string): string { if IsOpening(tag) then Stripped(tag) else tag }

  /** A closing tag, an instruction, and a declaration, comment or CDATA section stay as they
      are; any other tag is stripped. */
  lemma WhatIsStripped(tag: string)
    ensures (tag != [] && (tag[0] == '/' || tag[0] == '?' || tag[0] == '!')) ==> StrippedTag(tag) == tag
    ensures !(tag != [] && (tag[0] == '/' || tag[0] == '?' || tag[0] == '!')) ==> StrippedTag(tag) == Stripped(tag)
  {
    assert "/"[0] == '/' && "?"[0] == '?' && "!"[0] == '!';
    if tag != [] {
      assert "/" <= tag <==> tag[0] == '/';
      assert "?" <= tag <==> tag[0] == '?';
      assert "!" <= tag <==> tag[0] == '!';
    }
  }

  function StrippedSegments(s: Segments): Segments {
    match s
    case Tail(_) => s
    case Segment(before, tag, next) => Segment(before, StrippedTag(tag), StrippedSegments(next))
  }

  function StrippedXml(xml: string): string { Written(StrippedSegments(Cut(xml))) }

  method SimpleStripJunosAttrs(xml: string) returns (out: string)
    ensures out == StrippedXml(xml)
  {
    out := [];
    ghost var whole := StrippedXml(xml);
    var rest := xml;
    var start := FindChar(rest, '<');
    while start.Some?
      invariant start == FindChar(rest, '<')
      invariant out + StrippedXml(rest) == whole
      decreases |rest|
    {
      var finished;
      out, rest, finished := StripNextTag(out, rest, start.value);
      if finished { return; }
      start := FindChar(rest, '<');
    }
    NoTurn(rest);
    out := out + rest;
  }

  /** Copy up to the next tag and strip it, or copy what is left if that is never closed. */
  method StripNextTag(out: string, rest: string, start: nat) returns (out': string, rest': string, finished: bool)
    requires FindChar(rest, '<') == Some(start)
    ensures finished ==> out' == out + StrippedXml(rest)
    ensures !finished ==> |rest'| < |rest| && out' + StrippedXml(rest') == out + StrippedXml(rest)
  {
    var before, at := rest[..start], rest[start..];
    var end := FindChar(at, '>');
    if end.None? {
      LastTurn(out, rest, start, before, at);
      return out + before + at, [], true;
    }
    TagEnds(rest, start, end.value);
    var tag, after := at[1..end.value], at[end.value + 1..];
    var kept := StripTag(tag);
    Turn(out, rest, start, end.value, before, tag, after);
    return out + Piece(before, kept), after, false;
  }

  /** Only an opening tag is stripped. */
  method StripTag(tag: string) returns (kept: string)
    ensures kept == StrippedTag(tag)
  {
    kept := tag;
    if IsOpening(tag) { kept := SimpleStripJunos(tag); }
  }

  lemma NoTurn(rest: string)
    requires FindChar(rest, '<').None?
    ensures StrippedXml(rest) == rest
  {}

  lemma LastTurn(out: string, rest: string, start: nat, before: string, at: string)
    requires FindChar(rest, '<') == Some(start) && FindChar(rest[start..], '>').None?
    requires before == rest[..start] && at == rest[start..]
    ensures out + before + at == out + StrippedXml(rest)
  {
    assert StrippedXml(rest) == rest by { CutNone(rest, start); }
    Regroup(out, before, at);
    assert rest == before + at;
  }

  lemma TagEnds(rest: string, start: nat, end: nat)
    requires FindChar(rest, '<') == Some(start) && FindChar(rest[start..], '>') == Some(end)
    ensures 1 <= end < |rest[start..]|
  {
    assert rest[start..][0] == '<';
  }

  lemma Turn(out: string, rest: string, start: nat, end: nat, before: string, tag: string, after: string)
    requires FindChar(rest, '<') == Some(start) && FindChar(rest[start..], '>') == Some(end) && 1 <= end < |rest[start..]|
    requires before == rest[..start] && tag == rest[start..][1..end] && after == rest[start..][end + 1..]
    ensures out + Piece(before, StrippedTag(tag)) + StrippedXml(after) == out + StrippedXml(rest)
  {
    CutSome(rest, start, end);
    StrippedHere(rest, before, tag, after);
    Regroup(out, Piece(before, StrippedTag(tag)), StrippedXml(after));
  }

  /** One turn of the loop, on a text whose next `<` is known. */
  lemma CutSome(rest: string, start: nat, end: nat)
    requires FindChar(rest, '<') == Some(start) && FindChar(rest[start..], '>') == Some(end)
    ensures 1 <= end < |rest[start..]| && rest[start..][0] == '<'
    ensures Cut(rest) == Segment(rest[..start], rest[start..][1..end], Cut(rest[start..][end + 1..]))
  {
    assert rest[start..][0] == '<';
  }

  lemma CutNone(rest: string, start: nat)
    requires FindChar(rest, '<') == Some(start) && FindChar(rest[start..], '>').None?
    ensures Cut(rest) == Tail(rest)
  {}

  lemma StrippedHere(rest: string, before: string, tag: string, after: string)
    requires Cut(rest) == Segment(before, tag, Cut(after))
    ensures StrippedXml(rest) == Piece(before, StrippedTag(tag)) + StrippedXml(after)
  {}

  // ----- cutting and writing are inverse -----

  /** What a cut can give: text without `<`, tags without `>`, a tail with no tag. */
  ghost predicate Sound(s: Segments) {
    match s
    case Tail(text) => Cut(text) == Tail(text)
    case Segment(before, tag, next) => '<' !in before && '>' !in tag && Sound(next)
  }

  lemma FirstAt(s: string, c: char, n: nat)
    requires n < |s| && s[n] == c && c !in s[..n]
    ensures FindChar(s, c) == Some(n)
  {
    assert forall m :: 0 <= m < n ==> s[..n][m] == s[m];
    assert forall m :: n < m <= |s| ==> s[..m][n] == c;
  }

  lemma {:induction false} CutOfWritten(s: Segments)
    requires Sound(s)
    ensures Cut(Written(s)) == s
  {
    match s
    case Tail(_) =>
    case Segment(before, tag, next) =>
      CutOfWritten(next);
      CutPiece(before, tag, Written(next));
  }

  lemma CutPiece(before: string, tag: string, rest: string)
    requires '<' !in before && '>' !in tag
    ensures Cut(Piece(before, tag) + rest) == Segment(before, tag, Cut(rest))
  {
    var xml, at := Piece(before, tag) + rest, "<" + tag + ">" + rest;
    assert xml == before + at;
    assert xml[..|before|] == before && xml[|before|..] == at;
    FirstAt(xml, '<', |before|);
    assert at[..|tag| + 1] == "<" + tag && at[1..|tag| + 1] == tag && at[|tag| + 2..] == rest;
    FirstAt(at, '>', |tag| + 1);
  }

  lemma {:induction false} WrittenOfCut(xml: string)
    ensures Written(Cut(xml)) == xml
    decreases |xml|
  {
    var a := FindChar(xml, '<');
    if a.Some? {
      var at := xml[a.value..];
      var b := FindChar(at, '>');
      if b.None? {
        CutNone(xml, a.value);
      } else {
        CutSome(xml, a.value, b.value);
        WrittenOfCut(at[b.value + 1..]);
        WholeOfParts(xml, a.value, b.value);
      }
    }
  }

  lemma {:induction false} CutIsSound(xml: string)
    ensures Sound(Cut(xml))
    decreases |xml|
  {
    var a := FindChar(xml, '<');
    if a.Some? {
      var at := xml[a.value..];
      var b := FindChar(at, '>');
      if b.None? {
        CutNone(xml, a.value);
      } else {
        CutSome(xml, a.value, b.value);
        CutIsSound(at[b.value + 1..]);
        TagParts(at, b.value);
      }
    }
  }

  lemma WholeOfParts(xml: string, a: nat, b: nat)
    requires a < |xml| && xml[a] == '<' && 1 <= b < |xml[a..]| && xml[a..][b] == '>' && '>' !in xml[a..][..b]
    ensures xml == Piece(xml[..a], xml[a..][1..b]) + xml[a..][b + 1..] && '>' !in xml[a..][1..b]
  {
    TagParts(xml[a..], b);
    PieceParts(xml[..a], xml[a..][1..b], xml[a..][b + 1..]);
    assert xml == xml[..a] + xml[a..];
  }

  lemma PieceParts(before: string, tag: string, rest: string)
    ensures before + ("<" + tag + ">" + rest) == Piece(before, tag) + rest
  {}

  lemma TagParts(rest: string, b: nat)
    requires 1 <= b < |rest| && rest[0] == '<' && rest[b] == '>' && '>' !in rest[..b]
    ensures rest == "<" + rest[1..b] + ">" + rest[b + 1..] && '>' !in rest[1..b]
  {
    assert forall c :: c in rest[1..b] ==> c in rest[..b];
  }

  // ----- the strip touches opening tags only -----

  lemma {:induction false} StrippedIsDrawnFrom(s: string)
    ensures forall c :: c in Stripped(s) ==> c in s
    ensures |Stripped(s)| <= |s|
    decreases |s|
  {
    if s == [] {
    } else if PREFIX <= s {
      var rest := s[AttrEnd(s)..];
      StrippedIsDrawnFrom(TrimSpaces(rest));
      TrimDraws(rest);
    } else {
      StrippedIsDrawnFrom(s[1..]);
    }
  }

  lemma {:induction false} StrippedIsSame(s: string)
    ensures Stripped(s) == s <==> !Contains(s, PREFIX)
    decreases |s|
  {
    if s == [] {
      assert forall i :: 0 <= i <= |s| ==> s[i..] == [];
    } else if PREFIX <= s {
      StrippedIsDrawnFrom(TrimSpaces(s[AttrEnd(s)..]));
      assert s[0..] == s;
    } else {
      StrippedIsSame(s[1..]);
      ContainsBehind(s);
      assert s == [s[0]] + s[1..];
    }
  }

  lemma ContainsBehind(s: string)
    requires s != [] && !(PREFIX <= s)
    ensures Contains(s, PREFIX) <==> Contains(s[1..], PREFIX)
  {
    var t := s[1..];
    if Contains(s, PREFIX) {
      var i :| 0 <= i <= |s| && PREFIX <= s[i..];
      assert s[0..] == s && i > 0;
      assert t[i - 1..] == s[i..];
    }
    if Contains(t, PREFIX) {
      var i :| 0 <= i <= |t| && PREFIX <= t[i..];
      assert t[i..] == s[i + 1..];
    }
  }

  lemma {:induction false} TrimDraws(s: string)
    ensures forall c :: c in TrimSpaces(s) ==> c in s
  {
    if s != [] && s[0] == ' ' {
      TrimDraws(s[1..]);
    }
  }

  lemma {:induction false} StrippedSound(s: Segments)
    requires Sound(s)
    ensures Sound(StrippedSegments(s))
  {
    match s
    case Tail(_) =>
    case Segment(_, tag, next) =>
      StrippedSound(next);
      StrippedIsDrawnFrom(tag);
  }

  /** Cutting the result shows the text outside tags, every tag that is not an opening
      one, and the places of all tags, as they were. */
  lemma OnlyOpeningTagsChange(xml: string)
    ensures Cut(StrippedXml(xml)) == StrippedSegments(Cut(xml))
  {
    CutIsSound(xml);
    StrippedSound(Cut(xml));
    CutOfWritten(StrippedSegments(Cut(xml)));
  }

  /** Some opening tag mentions the prefix. */
  predicate Mentions(s: Segments) {
    s.Segment? && ((IsOpening(s.tag) && Contains(s.tag, PREFIX)) || Mentions(s.next))
  }

  lemma {:induction false} UnmentionedStays(s: Segments)
    ensures StrippedSegments(s) == s <==> !Mentions(s)
  {
    if s.Segment? {
      UnmentionedStays(s.next);
      StrippedIsSame(s.tag);
    }
  }

  /** The strip changes a text exactly when some opening tag mentions the prefix. */
  lemma IdentityWithoutMention(xml: string)
    ensures StrippedXml(xml) == xml <==> !Mentions(Cut(xml))
  {
    OnlyOpeningTagsChange(xml);
    WrittenOfCut(xml);
    UnmentionedStays(Cut(xml));
  }

  // ----- the normal form -----

  /** The lines that carry something, trimmed. */
  function Significant(lines: seq<string>): seq<string> { NonEmpty(Trim, lines) }

  function NonEmpty(trim: string -> string, lines: seq<string>): seq<string> {
    if lines == [] then []
    else (if trim(lines[0]) == [] then [] else [trim(lines[0])]) + NonEmpty(trim, lines[1..])
  }

  function Normal(xml: string): string { Join(Significant(Lines(StrippedXml(xml)))) }

  method NormaliseCandidateForFingerprint(xml: string) returns (normal: string)
    ensures normal == Normal(xml)
  {
    var stripped := SimpleStripJunosAttrs(xml);
    normal := Join(Significant(Lines(stripped)));
  }

  lemma TrimIsWithin(l: string)
    ensures forall c :: c in Trim(l) ==> c in l
  {
    var t := TrimStart(l);
    assert forall c :: c in t ==> c in l[|l| - |t|..];
  }

  lemma {:induction false} SignificantLines(lines: seq<string>)
    requires forall l :: l in lines ==> '\n' !in l
    ensures forall l :: l in Significant(lines) ==> l != [] && '\n' !in l
  {
    if lines != [] {
      SignificantLines(lines[1..]);
      TrimIsWithin(lines[0]);
      assert Significant(lines) ==
             (if Trim(lines[0]) == [] then [] else [Trim(lines[0])]) + Significant(lines[1..]);
    }
  }

  lemma {:induction false} NonEmptySnoc(trim: string -> string, ls: seq<string>, l: string)
    ensures NonEmpty(trim, ls + [l]) == NonEmpty(trim, ls) + if trim(l) == [] then [] else [trim(l)]
  {
    if ls == [] {
      assert ls + [l] == [l] && [l][1..] == [];
    } else {
      assert (ls + [l])[1..] == ls[1..] + [l];
      NonEmptySnoc(trim, ls[1..], l);
    }
  }

  /** `ps` are the places, in order, of exactly the lines with a character that is not
      whitespace. */
  ghost predicate TextLines(ls: seq<string>, ps: seq<nat>) { Places(ls, HasText, ps) }

  /** `kept` are the lines at these places, each trimmed. */
  ghost predicate TrimmedAt(kept: seq<string>, trim: string -> string, ls: seq<string>, ps: seq<nat>)
    requires forall i :: 0 <= i < |ps| ==> ps[i] < |ls|
  {
    |kept| == |ps| && forall i :: 0 <= i < |ps| ==> kept[i] == trim(ls[ps[i]])
  }

  lemma {:induction false} NonEmptyAreTheTextLines(trim: string -> string, ls: seq<string>, ps: seq<nat>)
    requires TextLines(ls, ps) && forall l :: trim(l) != [] <==> HasText(l)
    ensures TrimmedAt(NonEmpty(trim, ls), trim, ls, ps)
  {
    if ls == [] {
      assert ps == [];
    } else {
      var before, l := ls[..|ls| - 1], ls[|ls| - 1];
      assert ls == before + [l];
      NonEmptySnoc(trim, before, l);
      if HasText(l) {
        LastIsOne(before, l, HasText, ps);
        NonEmptyAreTheTextLines(trim, before, ps[..|ps| - 1]);
        OneMoreTextLine(NonEmpty(trim, before), trim, before, l, ps[..|ps| - 1]);
      } else {
        LastIsNone(before, l, HasText, ps);
        NonEmptyAreTheTextLines(trim, before, ps);
        NoMoreTextLine(NonEmpty(trim, before), trim, before, l, ps);
      }
    }
  }

  lemma OneMoreTextLine(kept: seq<string>, trim: string -> string, before: seq<string>, l: string, ps: seq<nat>)
    requires (forall i :: 0 <= i < |ps| ==> ps[i] < |before|) && TrimmedAt(kept, trim, before, ps)
    ensures TrimmedAt(kept + [trim(l)], trim, before + [l], ps + [|before|])
  {}

  lemma NoMoreTextLine(kept: seq<string>, trim: string -> string, before: seq<string>, l: string, ps: seq<nat>)
    requires (forall i :: 0 <= i < |ps| ==> ps[i] < |before|) && TrimmedAt(kept, trim, before, ps)
    ensures TrimmedAt(kept, trim, before + [l], ps)
  {}

  /** What is kept are exactly the lines with text, in order, each trimmed. */
  lemma SignificantAreTheTextLines(ls: seq<string>, ps: seq<nat>)
    requires TextLines(ls, ps)
    ensures TrimmedAt(Significant(ls), Trim, ls, ps)
  {
    forall l ensures Trim(l) != [] <==> HasText(l) {
      var i, j := TrimIsTheInside(l);
      assert |Trim(l)| == j - i;
    }
    NonEmptyAreTheTextLines(Trim, ls, ps);
  }

  /** The lines of the first at `ps` and those of the second at `qs` differ at their ends at
      most. */
  predicate SameTrimmed(a: seq<string>, ps: seq<nat>, b: seq<string>, qs: seq<nat>)
    requires (forall i :: 0 <= i < |ps| ==> ps[i] < |a|) && (forall i :: 0 <= i < |qs| ==> qs[i] < |b|)
  {
    |ps| == |qs| && forall i | 0 <= i < |ps| :: Trim(a[ps[i]]) == Trim(b[qs[i]])
  }

  /** Two configurations have the same normal form exactly when, stripped, their lines with
      text are as many and, one by one, the same but for whitespace at the ends. */
  lemma SameFormIsSameLines(x: string, y: string, ps: seq<nat>, qs: seq<nat>)
    requires TextLines(Lines(StrippedXml(x)), ps) && TextLines(Lines(StrippedXml(y)), qs)
    ensures Normal(x) == Normal(y) <==> SameTrimmed(Lines(StrippedXml(x)), ps, Lines(StrippedXml(y)), qs)
  {
    LinesHaveNoNewline(StrippedXml(x));
    LinesHaveNoNewline(StrippedXml(y));
    SameJoinedLines(Lines(StrippedXml(x)), ps, Lines(StrippedXml(y)), qs);
  }

  lemma SameJoinedLines(a: seq<string>, ps: seq<nat>, b: seq<string>, qs: seq<nat>)
    requires TextLines(a, ps) && TextLines(b, qs) && (forall l :: l in a ==> '\n' !in l) && (forall l :: l in b ==> '\n' !in l)
    ensures Join(Significant(a)) == Join(Significant(b)) <==> SameTrimmed(a, ps, b, qs)
  {
    SignificantLines(a);
    SignificantLines(b);
    SignificantAreTheTextLines(a, ps);
    SignificantAreTheTextLines(b, qs);
    SameKept(Significant(a), Significant(b));
    SameTrimmedKept(Significant(a), a, ps, Significant(b), b, qs);
  }

  lemma SameKept(a: seq<string>, b: seq<string>)
    requires (forall l :: l in a ==> l != [] && '\n' !in l) && (forall l :: l in b ==> l != [] && '\n' !in l)
    ensures Join(a) == Join(b) <==> a == b
  {
    if Join(a) == Join(b) {
      JoinIsInjective(a, b);
    }
  }

  lemma SameTrimmedKept(ka: seq<string>, a: seq<string>, ps: seq<nat>, kb: seq<string>, b: seq<string>, qs: seq<nat>)
    requires (forall i :: 0 <= i < |ps| ==> ps[i] < |a|) && (forall i :: 0 <= i < |qs| ==> qs[i] < |b|)
    requires TrimmedAt(ka, Trim, a, ps) && TrimmedAt(kb, Trim, b, qs)
    ensures ka == kb <==> SameTrimmed(a, ps, b, qs)
  {
    if ka == kb {
      forall i | 0 <= i < |ps| ensures Trim(a[ps[i]]) == Trim(b[qs[i]]) {
        assert ka[i] == kb[i];
      }
    }
  }

  // ----- volatile values do not show -----

  /** A document whose opening tags are a name and well-formed attributes. */
  datatype Doc =
    | Plain(text: string)
    | Opening(before: string, name: string, attrs: seq<Attr>, close: string, next: Doc)
    | OtherTag(before: string, tag: string, next: Doc)

  function SegmentsOf(d: Doc): Segments {
    match d
    case Plain(text) => Tail(text)
    case Opening(before, name, attrs, close, next) => Segment(before, name + Attrs(attrs, close), SegmentsOf(next))
    case OtherTag(before, tag, next) => Segment(before, tag, SegmentsOf(next))
  }

  ghost predicate OpeningOk(name: string, attrs: seq<Attr>, close: string) {
    && name != [] && Clear(name) && '>' !in name && IsOpening(name)
    && (forall a :: a in attrs ==> AttrOk(a))
    && '>' !in close && (attrs == [] ==> Apart(close))
  }

  ghost predicate DocOk(d: Doc) {
    match d
    case Plain(text) => '<' !in text
    case Opening(before, name, attrs, close, next) => '<' !in before && OpeningOk(name, attrs, close) && DocOk(next)
    case OtherTag(before, tag, next) => '<' !in before && '>' !in tag && !IsOpening(tag) && DocOk(next)
  }

  /** The same attributes, but that those of the prefix whose quote directly follows the
      `=` may be any others of that kind. */
  ghost predicate AttrsAlike(a: seq<Attr>, b: seq<Attr>) {
    && |a| == |b|
    && forall i :: 0 <= i < |a| ==> AttrAlike(a[i], b[i])
  }

  predicate AttrAlike(a: Attr, b: Attr) {
    a == b || (a.lead == b.lead && OfPrefix(a) && Tight(a) && OfPrefix(b) && Tight(b))
  }

  ghost predicate Alike(c: Doc, d: Doc) {
    match c
    case Plain(_) => c == d
    case Opening(before, name, attrs, close, next) =>
      && d.Opening? && d.before == before && d.name == name && AttrsAlike(attrs, d.attrs) && d.close == close
      && Alike(next, d.next)
    case OtherTag(before, tag, next) => d.OtherTag? && d.before == before && d.tag == tag && Alike(next, d.next)
  }

  lemma {:induction false} RemainsAlike(a: seq<Attr>, b: seq<Attr>, trim: bool, k: string)
    requires AttrsAlike(a, b)
    ensures Remains(a, trim, k) == Remains(b, trim, k)
    decreases |a|
  {
    if a != [] {
      assert AttrAlike(a[0], b[0]);
      RemainsAlike(a[1..], b[1..], false, k);
      RemainsAlike(a[1..], b[1..], true, k);
    }
  }

  lemma StrippedOpening(name: string, attrs: seq<Attr>, close: string)
    requires OpeningOk(name, attrs, close)
    ensures StrippedTag(name + Attrs(attrs, close)) == name + Remains(attrs, false, close)
  {
    assert attrs != [] ==> attrs[0] in attrs && attrs[0].lead[0] in attrs[0].lead;
    OpeningStays(name, Attrs(attrs, close));
    StrippedClear(name, Attrs(attrs, close));
    StrippedAttrs(attrs, false, close);
  }

  lemma OpeningStays(name: string, k: string)
    requires name != [] && IsOpening(name)
    ensures IsOpening(name + k)
  {
    assert (name + k)[0] == name[0];
  }

  lemma {:induction false} StrippedAlike(c: Doc, d: Doc)
    requires DocOk(c) && DocOk(d) && Alike(c, d)
    ensures StrippedSegments(SegmentsOf(c)) == StrippedSegments(SegmentsOf(d))
  {
    match c
    case Plain(_) =>
    case OtherTag(_, _, next) => StrippedAlike(next, d.next);
    case Opening(_, name, attrs, close, next) =>
      StrippedAlike(next, d.next);
      RemainsAlike(attrs, d.attrs, false, close);
      StrippedOpening(name, attrs, close);
      StrippedOpening(name, d.attrs, close);
  }

  lemma {:induction false} SegmentsSound(d: Doc)
    requires DocOk(d)
    ensures Sound(SegmentsOf(d))
  {
    match d
    case Plain(text) =>
    case Opening(_, _, attrs, close, next) =>
      SegmentsSound(next);
      forall a | a in attrs ensures AttrClosed(a) {
        OkIsClosed(a);
      }
      NoBracketInAttrs(attrs, close);
    case OtherTag(_, _, next) => SegmentsSound(next);
  }

  /** Documents that differ only in attributes of the prefix whose quote directly follows
      the `=`, such as the seconds since the last change, have one normal form, whatever
      blanks separate attributes. */
  lemma VolatileValuesDoNotShow(c: Doc, d: Doc)
    requires DocOk(c) && DocOk(d) && Alike(c, d)
    ensures Normal(Written(SegmentsOf(c))) == Normal(Written(SegmentsOf(d)))
  {
    SegmentsSound(c);
    SegmentsSound(d);
    CutOfWritten(SegmentsOf(c));
    CutOfWritten(SegmentsOf(d));
    StrippedAlike(c, d);
  }

  // ----- and where they do -----

  /** A document of one tag. */
  function OneTag(name: string, a: Attr, close: string): Doc { Opening([], name, [a], close, Plain([])) }

  /** One line. */
  predicate OneLine(s: string) { '\n' !in s }

  /** For an attribute of the prefix, alone in its tag and on one line, another value leaves
      the normal form as it was exactly when the quote directly follows the `=`: behind a
      blank there the value shows. */
  lemma ValueShowsInNormalForm(name: string, a: Attr, value: string, close: string)
    requires OfPrefix(a) && value != a.value && DocOk(OneTag(name, a, close)) && DocOk(OneTag(name, a.(value := value), close))
    requires OneLine(name + Attrs([a], close)) && OneLine(name + Attrs([a.(value := value)], close))
    ensures Normal(Written(SegmentsOf(OneTag(name, a, close)))) == Normal(Written(SegmentsOf(OneTag(name, a.(value := value), close))))
       <==> Tight(a)
  {
    var b := a.(value := value);
    var c, d := OneTag(name, a, close), OneTag(name, b, close);
    if Tight(a) {
      assert AttrAlike(a, b);
      VolatileValuesDoNotShow(c, d);
    } else {
      OneTagForm(name, a, close);
      OneTagForm(name, b, close);
      RemainsDiffer(a, b, close);
      DifferentTags(name, Remains([a], false, close), Remains([b], false, close));
    }
  }

  lemma RemainsDiffer(a: Attr, b: Attr, k: string)
    requires AttrOk(a) && AttrOk(b) && OfPrefix(a) && !Tight(a) && b == a.(value := b.value) && a.value != b.value
    ensures Remains([a], false, k) != Remains([b], false, k)
  {
    var front, rest := a.lead + TrimSpaces(a.after), Remains([], false, k);
    assert [a][1..] == [] && [b][1..] == [];
    Regroup(a.lead, TrimSpaces(a.after), Quoted(a, rest));
    Regroup(b.lead, TrimSpaces(b.after), Quoted(b, rest));
    SameQuotedSameValue(front, a, b, rest);
  }

  lemma DifferentTags(name: string, x: string, y: string)
    requires x != y
    ensures "<" + (name + x) + ">" != "<" + (name + y) + ">"
  {
    var s, t := "<" + (name + x) + ">", "<" + (name + y) + ">";
    assert s[1 + |name|..][..|s| - 2 - |name|] == x && t[1 + |name|..][..|t| - 2 - |name|] == y;
  }

  /** The normal form of a document of one tag on one line is the stripped tag. */
  lemma OneTagForm(name: string, a: Attr, close: string)
    requires DocOk(OneTag(name, a, close)) && OneLine(name + Attrs([a], close))
    ensures Normal(Written(SegmentsOf(OneTag(name, a, close)))) == "<" + (name + Remains([a], false, close)) + ">"
  {
    var tag := name + Attrs([a], close);
    SegmentsSound(OneTag(name, a, close));
    assert SegmentsOf(OneTag(name, a, close)) == Segment([], tag, Tail([]));
    StrippedOpening(name, [a], close);
    FormOfTag(tag);
  }

  lemma FormOfTag(tag: string)
    requires '>' !in tag && OneLine(tag)
    ensures Normal(Written(Segment([], tag, Tail([])))) == "<" + StrippedTag(tag) + ">"
  {
    var t := "<" + StrippedTag(tag) + ">";
    assert StrippedXml(Written(Segment([], tag, Tail([])))) == t by { StrippedOneTag(tag); }
    assert OneLine(StrippedTag(tag)) by { StrippedIsDrawnFrom(tag); }
    FormOfOneLine(t);
  }

  lemma StrippedOneTag(tag: string)
    requires '>' !in tag
    ensures StrippedXml(Written(Segment([], tag, Tail([])))) == "<" + StrippedTag(tag) + ">"
  {
    StrippedWritten(Segment([], tag, Tail([])));
    WrittenOneTag(StrippedTag(tag));
  }

  lemma StrippedWritten(s: Segments)
    requires Sound(s)
    ensures StrippedXml(Written(s)) == Written(StrippedSegments(s))
  {
    CutOfWritten(s);
  }

  lemma WrittenOneTag(tag: string)
    ensures Written(Segment([], tag, Tail([]))) == "<" + tag + ">"
  {
    assert [] + "<" == "<";
    assert ("<" + tag + ">") + [] == "<" + tag + ">";
  }

  lemma FormOfOneLine(t: string)
    requires OneLine(t) && |t| >= 2 && t[0] == '<' && t[|t| - 1] == '>'
    ensures Join(Significant(Lines(t))) == t
  {
    assert Lines(t) == [t] by { LineEndOf(t, []); }
    assert Trim(t) == t by { NothingToTrim(t); }
    SignificantOne(t);
  }

  lemma NothingToTrim(t: string)
    requires t != [] && t[0] == '<' && t[|t| - 1] == '>'
    ensures Trim(t) == t
  {
    assert TrimStart(t) == t;
    assert TrimEnd(t) == t;
  }

  lemma SignificantOne(t: string)
    requires t != [] && Trim(t) == t
    ensures Significant([t]) == [t]
  {
    assert [t][1..] == [] && [t][0] == t && NonEmpty(Trim, [t][1..]) == [];
  }

  /** Such an attribute, with a blank in front of its quote: 1 and 2 have different forms. */
  lemma SpacedValueShows()
    ensures var a := Attr(" ", "junos:x", "", " ", '"', "1");
            Normal(Written(SegmentsOf(OneTag("a", a, "")))) != Normal(Written(SegmentsOf(OneTag("a", a.(value := "2"), ""))))
  {
    SpacedTag("1");
    SpacedTag("2");
    assert "1"[0] != "2"[0];
    ValueShowsInNormalForm("a", Attr(" ", "junos:x", "", " ", '"', "1"), "2", "");
  }

  lemma SpacedTag(value: string)
    requires |value| == 1 && '0' <= value[0] <= '9'
    ensures var a := Attr(" ", "junos:x", "", " ", '"', value);
            AttrOk(a) && OfPrefix(a) && !Tight(a) && DocOk(OneTag("a", a, "")) && OneLine("a" + Attrs([a], ""))
  {
    var a := Attr(" ", "junos:x", "", " ", '"', value);
    ShortIsClear("a");
    ShortIsClear(value);
    assert a.name[..6] == PREFIX;
    assert forall c :: c in value ==> c == value[0];
    assert AttrOk(a) && OfPrefix(a) && !Tight(a);
    assert "a"[0] == 'a' && "/"[0] == '/' && "!"[0] == '!' && "?"[0] == '?';
    assert OpeningOk("a", [a], "");
    assert DocOk(Plain([])) && DocOk(OneTag("a", a, ""));
    assert OneLine("a" + Attrs([a], "")) by { OneLineTag("a", a, ""); }
  }

  lemma ShortIsClear(s: string)
    requires |s| < |PREFIX|
    ensures Clear(s)
  {
    forall i | 0 <= i < |s| ensures !(PREFIX <= s[i..]) {
      assert |s[i..]| < |PREFIX|;
    }
  }

  lemma OneLineTag(name: string, a: Attr, close: string)
    requires OneLine(name) && OneLine(a.lead) && OneLine(a.name) && OneLine(a.before) && OneLine(a.after)
    requires a.quote != '\n' && OneLine(a.value) && OneLine(close)
    ensures OneLine(name + Attrs([a], close))
  {
    assert [a][1..] == [];
    assert OneLine(Quoted(a, close)) && OneLine(AttrText(a, close));
  }
}
