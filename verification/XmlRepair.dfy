/** Making a device reply parseable again: `<` and `>` that an earlier layer decoded in
    text are escaped, and attributes of the undeclared `junos` prefix are removed. */
module XmlRepair {
  import opened Prelude
  import opened Text
  import opened PrefixStrip

  predicate IsTagChar(c: char) {
    c == '/' || c == '?' || c == '!' || c == '_' || ('a' <= c <= 'z') || ('A' <= c <= 'Z') || IsDigit(c)
  }

  /** The text starts with a `<` that opens markup. */
  predicate TagStart(s: string) { |s| > 1 && s[0] == '<' && IsTagChar(s[1]) }

  const MARKS := "/?!_"
  const DIGITS := "0123456789"
  const SMALL := "abcdefghijklmnopqrstuvwxyz"
  const LARGE := "ABCDEFGHIJKLMNOPQRSTUVWXYZ"

  /** Markup opens exactly at a `<` with one of these behind it: the `<` of an element, an
      end tag, a declaration or an instruction. */
  lemma TagStartIsKnown(s: string)
    ensures TagStart(s) <==>
            |s| > 1 && s[0] == '<' && (s[1] in MARKS || s[1] in DIGITS || s[1] in SMALL || s[1] in LARGE)
  {
    if |s| > 1 {
      InOrder(DIGITS, s[1]);
      InOrder(SMALL, s[1]);
      InOrder(LARGE, s[1]);
    }
  }

  /** A list of characters that follow one another holds those from its first to its last. */
  lemma InOrder(all: string, c: char)
    requires all != [] && forall i :: 0 <= i < |all| ==> all[i] as int == all[0] as int + i
    ensures c in all <==> all[0] <= c <= all[|all| - 1]
  {
    if all[0] <= c <= all[|all| - 1] {
      assert all[c as int - all[0] as int] == c;
    }
  }

  function Entity(c: char): string { if c == '<' then "&lt;" else if c == '>' then "&gt;" else [c] }

  function EscapeText(t: string): string {
    if t == [] then [] else Entity(t[0]) + EscapeText(t[1..])
  }

  /** Text is escaped, markup is copied up to its `>`. */
  function Repair(s: string, inText: bool): string {
    if s == [] then []
    else if inText && !TagStart(s) then Entity(s[0]) + Repair(s[1..], true)
    else [s[0]] + Repair(s[1..], s[0] == '>')
  }

  /** A `<` or `>` stands where text is. */
  predicate Bare(s: string, inTag: bool) {
    if s == [] then false
    else if inTag then Bare(s[1..], s[0] != '>')
    else if s[0] == '<' then !TagStart(s) || Bare(s[1..], true)
    else s[0] == '>' || Bare(s[1..], false)
  }

  function Escaped(xml: string): string { Repair(xml, !("<" <= xml)) }

  // ----- the scanners -----

  method FindNextTagStart(s: string) returns (r: Option<nat>)
    ensures r.Some? ==> r.value < |s| && TagStart(s[r.value..]) && forall i :: 0 <= i < r.value ==> !TagStart(s[i..])
    ensures r.None? ==> forall i :: 0 <= i < |s| ==> !TagStart(s[i..])
  {
    var i := 0;
    while i < |s|
      invariant i <= |s|
      invariant forall j :: 0 <= j < i ==> !TagStart(s[j..])
    {
      if s[i] == '<' && i + 1 < |s| && IsTagChar(s[i + 1]) {
        return Some(i);
      }
      i := i + 1;
    }
    return None;
  }

  method HasBareAngleBracketsInText(xml: string) returns (r: bool)
    ensures r == Bare(xml, false)
  {
    var i, inTag := 0, false;
    while i < |xml|
      invariant i <= |xml|
      invariant Bare(xml[i..], inTag) == Bare(xml, false)
    {
      assert xml[i..][1..] == xml[i + 1..];
      var c := xml[i];
      if inTag {
        inTag := c != '>';
      } else if c == '<' {
        if i + 1 < |xml| && IsTagChar(xml[i + 1]) {
          inTag := true;
        } else {
          return true;
        }
      } else if c == '>' {
        return true;
      }
      i := i + 1;
    }
    return false;
  }

  method EscapeTextAngleBrackets(xml: string) returns (out: string)
    ensures out == Escaped(xml)
  {
    out := [];
    var rest, inText := xml, !("<" <= xml);
    while rest != []
      invariant out + Repair(rest, inText) == Escaped(xml)
      decreases |rest|, inText
    {
      if inText {
        var next := FindNextTagStart(rest);
        var n := if next.Some? then next.value else |rest|;
        TextStep(rest, n);
        var segment := EscapeChars(rest[..n]);
        Regroup(out, segment, Repair(rest[n..], true));
        out, rest := out + segment, rest[n..];
        if next.None? { break; }
        TagStartIsMarkup(rest);
        inText := false;
      } else {
        var end := FindChar(rest, '>');
        MarkupStep(rest, end);
        if end.None? {
          out, rest := out + rest, [];
          break;
        }
        var markup, after := rest[..end.value + 1], rest[end.value + 1..];
        Regroup(out, markup, Repair(after, true));
        out, rest, inText := out + markup, after, true;
      }
    }
  }

  lemma TextStep(rest: string, n: nat)
    requires n <= |rest| && forall i :: 0 <= i < n ==> !TagStart(rest[i..])
    ensures Repair(rest, true) == EscapeText(rest[..n]) + Repair(rest[n..], true)
  {
    SplitText(rest[..n], rest[n..], rest);
  }

  lemma SplitText(t: string, after: string, rest: string)
    requires rest == t + after && forall i :: 0 <= i < |t| ==> !TagStart(rest[i..])
    ensures Repair(rest, true) == EscapeText(t) + Repair(after, true)
  {
    RepairOfText(t, after);
  }

  lemma MarkupStep(rest: string, end: Option<nat>)
    requires end == FindChar(rest, '>')
    ensures end.None? ==> Repair(rest, false) == rest
    ensures end.Some? ==> Repair(rest, false) == rest[..end.value + 1] + Repair(rest[end.value + 1..], true)
  {
    if end.None? {
      RepairOfOpenMarkup(rest);
    } else {
      var n := end.value;
      assert rest == rest[..n] + ">" + rest[n + 1..] && rest[..n + 1] == rest[..n] + ">";
      RepairOfMarkup(rest[..n], rest[n + 1..]);
    }
  }

  method EscapeChars(t: string) returns (out: string)
    ensures out == EscapeText(t)
  {
    out := [];
    for i := 0 to |t|
      invariant out + EscapeText(t[i..]) == EscapeText(t)
    {
      assert t[i..][1..] == t[i + 1..];
      Regroup(out, Entity(t[i]), EscapeText(t[i + 1..]));
      out := out + Entity(t[i]);
    }
  }

  // ----- what the repair does to text and to markup -----

  lemma {:induction false} RepairOfText(t: string, rest: string)
    requires forall i :: 0 <= i < |t| ==> !TagStart((t + rest)[i..])
    ensures Repair(t + rest, true) == EscapeText(t) + Repair(rest, true)
    decreases |t|
  {
    var s := t + rest;
    if t == [] {
      assert s == rest;
    } else {
      assert s[0..] == s && s[1..] == t[1..] + rest;
      forall i | 0 <= i < |t[1..]| ensures !TagStart((t[1..] + rest)[i..]) {
        assert (t[1..] + rest)[i..] == s[i + 1..];
      }
      RepairOfText(t[1..], rest);
    }
  }

  lemma {:induction false} RepairOfMarkup(m: string, rest: string)
    requires '>' !in m
    ensures Repair(m + ">" + rest, false) == m + ">" + Repair(rest, true)
    decreases |m|
  {
    var s := m + ">" + rest;
    if m == [] {
      assert s[1..] == rest;
    } else {
      assert m[0] in m && s[0] == m[0];
      assert s[1..] == m[1..] + ">" + rest;
      RepairOfMarkup(m[1..], rest);
    }
  }

  lemma {:induction false} RepairOfOpenMarkup(m: string)
    requires '>' !in m
    ensures Repair(m, false) == m
  {
    if m != [] {
      assert m[0] in m;
      RepairOfOpenMarkup(m[1..]);
    }
  }

  lemma TagStartIsMarkup(s: string)
    requires TagStart(s)
    ensures Repair(s, true) == Repair(s, false)
  {}

  // ----- main results on any input -----

  /** A text starting with a `<` that opens no markup is taken for markup by the escape
      and for bare text by the scan. */
  predicate StartsBare(s: string) { "<" <= s && !TagStart(s) }

  /** The separately written scan says exactly whether the escape changes anything,
      except that it is always true of a text starting with a bare `<`. */
  lemma ScanSeesWhatEscapeChanges(xml: string)
    ensures Bare(xml, false) <==> Escaped(xml) != xml || StartsBare(xml)
  {
    if "<" <= xml {
      if TagStart(xml) {
        TagStartIsMarkup(xml);
        BareMeansChanged(xml, true);
      }
    } else {
      BareMeansChanged(xml, true);
    }
  }

  /** The exception: at its front a bare bracket is taken for markup and left alone, and
      the scan reports it all the same. */
  lemma BareFrontIsLeftAlone(t: string)
    requires t != [] && !IsTagChar(t[0]) && '>' !in t
    ensures Bare("<" + t, false) && Escaped("<" + t) == "<" + t
  {
    assert '>' !in "<" + t;
    RepairOfOpenMarkup("<" + t);
  }

  lemma {:induction false} BareMeansChanged(s: string, inText: bool)
    ensures Bare(s, !inText) <==> Repair(s, inText) != s
    ensures |Repair(s, inText)| >= |s|
    decreases |s|
  {
    if s != [] {
      BareMeansChanged(s[1..], (inText && !TagStart(s)) || s[0] == '>');
      assert s == [s[0]] + s[1..];
    }
  }

  lemma EscapedTwice(xml: string)
    ensures Escaped(Escaped(xml)) == Escaped(xml)
  {
    RepairTwice(xml, !("<" <= xml));
    var out := Escaped(xml);
    if xml != [] {
      assert "<" <= xml ==> out[0] == xml[0];
    }
  }

  /** What a repair leaves at the front: nothing new that opens markup. */
  lemma RepairFront(s: string, inText: bool)
    requires s != []
    ensures Repair(s, inText) != []
    ensures (if inText && !TagStart(s) then Repair(s, inText)[0] == Entity(s[0])[0] else Repair(s, inText)[0] == s[0])
  {}

  lemma {:induction false} RepairTwice(s: string, inText: bool)
    ensures Repair(Repair(s, inText), inText) == Repair(s, inText)
    decreases |s|
  {
    if s == [] {
    } else if inText && !TagStart(s) {
      var e, after := Entity(s[0]), Repair(s[1..], true);
      RepairTwice(s[1..], true);
      assert forall i :: 0 <= i < |e| ==> (e + after)[i] == e[i] && e[i] != '<';
      RepairOfText(e, after);
      PlainText(e);
    } else {
      var after := Repair(s[1..], s[0] == '>');
      RepairTwice(s[1..], s[0] == '>');
      if inText {
        RepairFront(s[1..], false);
      }
      assert ([s[0]] + after)[1..] == after;
    }
  }

  lemma {:induction false} PlainText(t: string)
    requires '<' !in t && '>' !in t
    ensures EscapeText(t) == t
  {
    if t != [] {
      assert t[0] in t;
      PlainText(t[1..]);
    }
  }

  // ----- the sanitizer -----

  function Sanitized(xml: string): string {
    if Bare(xml, false) then Escaped(Stripped(xml)) else Stripped(xml)
  }

  /** A reply with neither problem is given back as it is. */
  method SanitizeRustezXml(xml: string) returns (out: string)
    ensures out == Sanitized(xml)
    ensures !Contains(xml, PREFIX) && !Bare(xml, false) ==> out == xml
  {
    var at := Find(xml, PREFIX);
    var needsEscape := HasBareAngleBracketsInText(xml);
    if at.None? {
      StrippedAfter(xml, |xml|);
      assert Stripped(xml) == xml;
    }
    var afterNs := xml;
    if at.Some? { afterNs := SimpleStripJunos(xml); }
    out := afterNs;
    if needsEscape { out := EscapeTextAngleBrackets(afterNs); }
  }

  // ----- documents -----

  /** Elements and text, each with what follows it. `close` is whatever stands between
      the last attribute and the `>`. */
  datatype Tree =
    | End
    | Content(text: string, next: Tree)
    | Element(name: string, attrs: seq<Attr>, close: string, kids: Tree, next: Tree)
    | Single(name: string, attrs: seq<Attr>, close: string, next: Tree)

  /** What the layer below does to text: two of the entities are decoded. */
  function Decode(t: string): string {
    if t == [] then []
    else if "&lt;" <= t then "<" + Decode(t[4..])
    else if "&gt;" <= t then ">" + Decode(t[4..])
    else [t[0]] + Decode(t[1..])
  }

  function Tag(name: string, attrs: seq<Attr>, close: string, k: string): string {
    "<" + (name + Attrs(attrs, close + (">" + k)))
  }

  /** A document followed by `k`, with its text as written or decoded. */
  function Render(t: Tree, decoded: bool, k: string): string {
    match t
    case End => k
    case Content(text, next) => (if decoded then Decode(text) else text) + Render(next, decoded, k)
    case Element(name, attrs, close, kids, next) =>
      Tag(name, attrs, close, Render(kids, decoded, Tag("/" + name, [], [], Render(next, decoded, k))))
    case Single(name, attrs, close, next) => Tag(name, attrs, close, Render(next, decoded, k))
  }

  /** The document without its attributes of the prefix; of the rest only blanks move. */
  function Pruned(t: Tree): Tree {
    match t
    case End => End
    case Content(text, next) => Content(text, Pruned(next))
    case Element(name, attrs, close, kids, next) =>
      Element(name, Moved(attrs, [], false), MovedClose(attrs, [], false, close), Pruned(kids), Pruned(next))
    case Single(name, attrs, close, next) =>
      Single(name, Moved(attrs, [], false), MovedClose(attrs, [], false, close), Pruned(next))
  }

  /** Blanks, slashes: nothing that could be part of the prefix. */
  predicate CloseOk(close: string) { forall c <- close :: c != '>' && !IsPrefixChar(c) }

  predicate TagName(name: string) { name != [] && IsTagChar(name[0]) && '>' !in name }

  predicate AttrsClosed(attrs: seq<Attr>) { forall a <- attrs :: AttrClosed(a) }

  /** What the escape needs: markup without `>`; text that holds no raw bracket, and whose
      decoded form holds no `<` that a tag character follows; no two texts side by side. */
  predicate MarkupOk(t: Tree) {
    match t
    case End => true
    case Content(text, next) =>
      && '<' !in text && '>' !in text && !next.Content? && MarkupOk(next)
      && forall i | 0 <= i < |Decode(text)| :: !TagStart(Decode(text)[i..])
    case Element(name, attrs, close, kids, next) =>
      TagName(name) && AttrsClosed(attrs) && '>' !in close && MarkupOk(kids) && MarkupOk(next)
    case Single(name, attrs, close, next) =>
      TagName(name) && AttrsClosed(attrs) && '>' !in close && MarkupOk(next)
  }

  ghost predicate AttrsOk(attrs: seq<Attr>) {
    forall a :: a in attrs ==> AttrOk(a) && (OfPrefix(a) ==> Tight(a))
  }

  /** What the strip needs besides: the prefix stands only at the start of names of
      well-formed attributes whose quote directly follows the `=`. */
  ghost predicate PrefixOk(t: Tree) {
    match t
    case End => true
    case Content(text, next) => Clear(Decode(text)) && PrefixOk(next)
    case Element(name, attrs, close, kids, next) =>
      Clear(name) && AttrsOk(attrs) && CloseOk(close) && PrefixOk(kids) && PrefixOk(next)
    case Single(name, attrs, close, next) =>
      Clear(name) && AttrsOk(attrs) && CloseOk(close) && PrefixOk(next)
  }

  // ----- the repair of a rendered document -----

  lemma {:induction false} EscapeUndoesDecode(t: string)
    requires '<' !in t && '>' !in t
    ensures EscapeText(Decode(t)) == t
  {
    if t == [] {
    } else if "&lt;" <= t || "&gt;" <= t {
      EscapeUndoesDecode(t[4..]);
      var d := Decode(t);
      assert d[1..] == Decode(t[4..]) && t == t[..4] + t[4..];
    } else {
      EscapeUndoesDecode(t[1..]);
      assert t[0] in t && Decode(t)[1..] == Decode(t[1..]);
      assert t == [t[0]] + t[1..];
    }
  }

  /** What may follow text: nothing, or markup. */
  predicate Follows(k: string) { k == [] || TagStart(k) }

  lemma RepairOfContent(d: string, k: string)
    requires forall i :: 0 <= i < |d| ==> !TagStart(d[i..])
    requires Follows(k)
    ensures Repair(d + k, true) == EscapeText(d) + Repair(k, true)
  {
    forall i | 0 <= i < |d| ensures !TagStart((d + k)[i..]) {
      var s := (d + k)[i..];
      assert s == d[i..] + k;
      assert !TagStart(d[i..]);
    }
    RepairOfText(d, k);
  }

  lemma {:induction false} AttrsAppend(attrs: seq<Attr>, a: string, b: string)
    ensures Attrs(attrs, a + b) == Attrs(attrs, a) + b
  {
    if attrs != [] {
      AttrsAppend(attrs[1..], a, b);
      AttrTextAppend(attrs[0], Attrs(attrs[1..], a), b);
      Regroup(attrs[0].lead, AttrText(attrs[0], Attrs(attrs[1..], a)), b);
    }
  }

  lemma AttrTextAppend(a: Attr, x: string, y: string)
    ensures AttrText(a, x + y) == AttrText(a, x) + y
  {
    assert Quoted(a, x + y) == Quoted(a, x) + y;
    Regroup(a.after, Quoted(a, x), y);
    Regroup("=", a.after + Quoted(a, x), y);
    Regroup(a.before, "=" + (a.after + Quoted(a, x)), y);
    Regroup(a.name, a.before + ("=" + (a.after + Quoted(a, x))), y);
  }

  lemma RepairOfTag(name: string, attrs: seq<Attr>, close: string, k: string)
    requires TagName(name) && AttrsClosed(attrs) && '>' !in close
    ensures Repair(Tag(name, attrs, close, k), true) == Tag(name, attrs, close, Repair(k, true))
    ensures TagStart(Tag(name, attrs, close, k))
  {
    var m := "<" + (name + Attrs(attrs, close));
    NoBracketInAttrs(attrs, close);
    TagIsMarkup(name, attrs, close, k);
    TagIsMarkup(name, attrs, close, Repair(k, true));
    RepairOfMarkup(m, k);
    TagStartIsMarkup(m + ">" + k);
  }

  lemma TagIsMarkup(name: string, attrs: seq<Attr>, close: string, k: string)
    ensures Tag(name, attrs, close, k) == "<" + (name + Attrs(attrs, close)) + ">" + k
  {
    AttrsAppend(attrs, close, ">" + k);
    Spliced(name, Attrs(attrs, close), k);
  }

  lemma Spliced(name: string, x: string, k: string)
    ensures "<" + (name + (x + (">" + k))) == "<" + (name + x) + ">" + k
  {}

  lemma EndNameClear(name: string)
    requires Clear(name)
    ensures Clear("/" + name)
  {
    var n := "/" + name;
    assert n[0] == '/' && PREFIX[0] == 'j';
    forall i | 0 <= i < |n| ensures !(PREFIX <= n[i..]) {
      if i == 0 {
        assert n[0..] == n;
      } else {
        assert n[i..] == name[i - 1..] && !(PREFIX <= name[i - 1..]);
      }
    }
  }

  /** Escaping the rendering whose text was decoded gives the rendering as written. */
  lemma {:induction false} RepairOfTree(t: Tree, k: string)
    requires MarkupOk(t) && Follows(k)
    ensures Repair(Render(t, true, k), true) == Render(t, false, Repair(k, true))
    ensures !t.Content? ==> Follows(Render(t, true, k))
  {
    match t
    case End =>
    case Content(text, next) =>
      RepairOfTree(next, k);
      RepairOfContent(Decode(text), Render(next, true, k));
      EscapeUndoesDecode(text);
    case Element(name, attrs, close, kids, next) =>
      RepairOfTree(next, k);
      var after := Tag("/" + name, [], [], Render(next, true, k));
      RepairOfTag("/" + name, [], [], Render(next, true, k));
      RepairOfTree(kids, after);
      RepairOfTag(name, attrs, close, Render(kids, true, after));
    case Single(name, attrs, close, next) =>
      RepairOfTree(next, k);
      RepairOfTag(name, attrs, close, Render(next, true, k));
  }

  // ----- the strip of a rendered document -----

  lemma {:induction false} TrimmedCloseOk(close: string)
    requires CloseOk(close)
    ensures CloseOk(TrimSpaces(close))
  {
    if close != [] && close[0] == ' ' {
      TrimmedCloseOk(close[1..]);
    }
  }

  lemma CloseIsClear(close: string)
    requires CloseOk(close)
    ensures Clear(close)
  {
    forall i | 0 <= i < |close| ensures !(PREFIX <= close[i..]) {
      assert close[i] in close && close[i..][0] == close[i];
      assert IsPrefixChar(PREFIX[0]);
    }
  }

  lemma StrippedClose(close: string, k: string)
    requires CloseOk(close)
    ensures Stripped(close + (">" + k)) == close + (">" + Stripped(k))
  {
    StrippedChar('>', k);
    CloseIsClear(close);
    StrippedClear(close, ">" + k);
  }

  lemma StrippedTag(name: string, attrs: seq<Attr>, close: string, k: string)
    requires Clear(name) && AttrsOk(attrs) && CloseOk(close)
    ensures Stripped(Tag(name, attrs, close, k))
         == Tag(name, Moved(attrs, [], false), MovedClose(attrs, [], false, close), Stripped(k))
  {
    InsideIsApart(attrs, close, k);
    StrippedName(name, Attrs(attrs, close + (">" + k)));
    assert Stripped(Attrs(attrs, close + (">" + k)))
        == Attrs(Moved(attrs, [], false), MovedClose(attrs, [], false, close) + (">" + Stripped(k))) by {
      StrippedAttrs(attrs, false, close + (">" + k));
      RemainsAreMoved(attrs, [], false, close, k);
      assert [] + Remains(attrs, false, close + (">" + k)) == Remains(attrs, false, close + (">" + k));
    }
  }

  lemma StrippedName(name: string, inside: string)
    requires Clear(name) && Apart(inside)
    ensures Stripped("<" + (name + inside)) == "<" + (name + Stripped(inside))
  {
    StrippedClear(name, inside);
    StrippedChar('<', name + inside);
  }

  lemma InsideIsApart(attrs: seq<Attr>, close: string, k: string)
    requires AttrsOk(attrs) && CloseOk(close)
    ensures Apart(Attrs(attrs, close + (">" + k)))
  {
    if attrs == [] {
      assert close != [] ==> close[0] in close;
    } else {
      assert attrs[0] in attrs && attrs[0].lead[0] in attrs[0].lead;
    }
  }

  lemma {:induction false} RemainsAreMoved(attrs: seq<Attr>, carry: string, trim: bool, close: string, k: string)
    requires AttrsOk(attrs) && CloseOk(close)
    ensures carry + Remains(attrs, trim, close + (">" + k))
         == Attrs(Moved(attrs, carry, trim), MovedClose(attrs, carry, trim, close) + (">" + Stripped(k)))
    decreases |attrs|
  {
    if attrs == [] {
      var left := if trim then TrimSpaces(close) else close;
      TrimOfBlanks(close, ">" + k);
      TrimmedCloseOk(close);
      StrippedClose(left, k);
      Regroup(carry, left, ">" + Stripped(k));
    } else {
      var a, rest := attrs[0], attrs[1..];
      var lead := if trim then TrimSpaces(a.lead) else a.lead;
      assert a in attrs && AttrsOk(rest);
      if OfPrefix(a) {
        RemainsAreMoved(rest, carry + lead, true, close, k);
        Regroup(carry, lead, Remains(rest, true, close + (">" + k)));
      } else {
        RemainsAreMoved(rest, [], false, close, k);
        assert [] + Remains(rest, false, close + (">" + k)) == Remains(rest, false, close + (">" + k));
        Regroup(carry, lead, AttrText(a, Remains(rest, false, close + (">" + k))));
        MovedCons(a.(lead := carry + lead), Moved(rest, [], false), MovedClose(rest, [], false, close) + (">" + Stripped(k)));
      }
    }
  }

  lemma MovedCons(a: Attr, rest: seq<Attr>, k: string)
    ensures Attrs([a] + rest, k) == a.lead + AttrText(a, Attrs(rest, k))
  {
    assert ([a] + rest)[1..] == rest;
  }

  lemma {:induction false} StrippedTree(t: Tree, k: string)
    requires MarkupOk(t) && PrefixOk(t) && Follows(k)
    ensures Stripped(Render(t, true, k)) == Render(Pruned(t), true, Stripped(k))
  {
    match t
    case End =>
    case Content(text, next) =>
      StrippedTree(next, k);
      RepairOfTree(next, k);
      StrippedClear(Decode(text), Render(next, true, k));
    case Element(name, attrs, close, kids, next) =>
      var after := Render(next, true, k);
      StrippedTree(next, k);
      EndNameClear(name);
      StrippedTag("/" + name, [], [], after);
      RepairOfTag("/" + name, [], [], after);
      StrippedTree(kids, Tag("/" + name, [], [], after));
      StrippedTag(name, attrs, close, Render(kids, true, Tag("/" + name, [], [], after)));
    case Single(name, attrs, close, next) =>
      StrippedTree(next, k);
      StrippedTag(name, attrs, close, Render(next, true, k));
  }

  lemma {:induction false} PrunedOk(t: Tree)
    requires MarkupOk(t)
    ensures MarkupOk(Pruned(t))
  {
    match t
    case End =>
    case Content(_, next) => PrunedOk(next);
    case Element(_, attrs, close, kids, next) =>
      MovedClosed(attrs, [], false, close);
      PrunedOk(kids);
      PrunedOk(next);
    case Single(_, attrs, close, next) =>
      MovedClosed(attrs, [], false, close);
      PrunedOk(next);
  }

  lemma {:induction false} MovedClosed(attrs: seq<Attr>, carry: string, trim: bool, close: string)
    requires AttrsClosed(attrs) && '>' !in carry && '>' !in close
    ensures AttrsClosed(Moved(attrs, carry, trim)) && '>' !in MovedClose(attrs, carry, trim, close)
    decreases |attrs|
  {
    if attrs == [] {
      NoBracketTrimmed(close);
    } else {
      var a := attrs[0];
      var lead := carry + if trim then TrimSpaces(a.lead) else a.lead;
      assert a in attrs && AttrClosed(a) && AttrsClosed(attrs[1..]);
      NoBracketTrimmed(a.lead);
      MovedClosed(attrs[1..], if OfPrefix(a) then lead else [], OfPrefix(a), close);
    }
  }

  lemma {:induction false} NoBracketTrimmed(s: string)
    requires '>' !in s
    ensures '>' !in TrimSpaces(s)
  {
    if s != [] && s[0] == ' ' {
      NoBracketTrimmed(s[1..]);
    }
  }

  /** No text was changed by decoding. */
  predicate Plain(t: Tree) {
    match t
    case End => true
    case Content(text, next) => Decode(text) == text && Plain(next)
    case Element(_, _, _, kids, next) => Plain(kids) && Plain(next)
    case Single(_, _, _, next) => Plain(next)
  }

  lemma PrunedPlain(t: Tree)
    ensures Plain(Pruned(t)) <==> Plain(t)
  {}

  /** The repair finds something to do exactly when decoding changed some text. */
  lemma {:induction false} ChangedTree(t: Tree, k: string)
    requires MarkupOk(t) && Follows(k)
    ensures var s := Render(t, true, k);
            Repair(s, true) == s <==> Plain(t) && Repair(k, true) == k
  {
    match t
    case End =>
    case Content(text, next) =>
      var after := Render(next, true, k);
      ChangedTree(next, k);
      RepairOfTree(next, k);
      RepairOfContent(Decode(text), after);
      EscapeUndoesDecode(text);
      BareMeansChanged(after, true);
      DecodeShortens(text);
      SameParts(text, Repair(after, true), Decode(text), after);
    case Element(name, attrs, close, kids, next) =>
      var after := Render(next, true, k);
      var end := Tag("/" + name, [], [], after);
      ChangedTree(next, k);
      RepairOfTag("/" + name, [], [], after);
      TagKeepsChange("/" + name, [], [], after, Repair(after, true));
      ChangedTree(kids, end);
      RepairOfTag(name, attrs, close, Render(kids, true, end));
      TagKeepsChange(name, attrs, close, Render(kids, true, end), Repair(Render(kids, true, end), true));
    case Single(name, attrs, close, next) =>
      var after := Render(next, true, k);
      ChangedTree(next, k);
      RepairOfTag(name, attrs, close, after);
      TagKeepsChange(name, attrs, close, after, Repair(after, true));
  }

  lemma TagKeepsChange(name: string, attrs: seq<Attr>, close: string, k: string, k': string)
    ensures Tag(name, attrs, close, k) == Tag(name, attrs, close, k') <==> k == k'
  {
    var m := "<" + (name + Attrs(attrs, close)) + ">";
    TagIsMarkup(name, attrs, close, k);
    TagIsMarkup(name, attrs, close, k');
    assert (m + k)[|m|..] == k && (m + k')[|m|..] == k';
  }

  lemma SameParts(a: string, b: string, c: string, d: string)
    requires |a| >= |c| && |b| >= |d|
    ensures a + b == c + d <==> a == c && b == d
  {
    if a + b == c + d {
      assert |a + b| == |c + d|;
      assert (a + b)[..|a|] == a && (c + d)[..|a|] == c;
      assert (a + b)[|a|..] == b && (c + d)[|a|..] == d;
    }
  }

  lemma {:induction false} DecodeShortens(t: string)
    ensures |Decode(t)| <= |t|
    ensures t != [] ==> Decode(t) != []
  {
    if t == [] {
    } else if "&lt;" <= t || "&gt;" <= t {
      DecodeShortens(t[4..]);
    } else {
      DecodeShortens(t[1..]);
    }
  }

  // ----- main results on documents -----

  /** The document does not begin with a decoded `<`. */
  predicate Rooted(t: Tree) { t.Content? ==> t.text != [] && Decode(t.text) != [] && Decode(t.text)[0] != '<' }

  lemma RootedDoesNotStartBare(t: Tree)
    requires MarkupOk(t) && Rooted(t)
    ensures !StartsBare(Render(t, true, []))
    ensures Escaped(Render(t, true, [])) == Repair(Render(t, true, []), true)
  {
    var s := Render(t, true, []);
    RepairOfTree(t, []);
    if t.Content? {
      assert s[0] == Decode(t.text)[0];
    }
    if TagStart(s) {
      TagStartIsMarkup(s);
    }
  }

  /** Escaping a document whose text was decoded gives the document as written. */
  lemma EscapeRestoresDocument(t: Tree)
    requires MarkupOk(t) && Rooted(t)
    ensures Escaped(Render(t, true, [])) == Render(t, false, [])
  {
    RootedDoesNotStartBare(t);
    RepairOfTree(t, []);
  }

  /** The sanitizer turns the decoded document into the document as written, without
      the attributes of the prefix, and with nothing else changed. */
  lemma SanitizeRestoresDocument(t: Tree)
    requires MarkupOk(t) && PrefixOk(t) && Rooted(t)
    ensures Sanitized(Render(t, true, [])) == Render(Pruned(t), false, [])
  {
    var s, p := Render(t, true, []), Pruned(t);
    StrippedTree(t, []);
    PrunedOk(t);
    PrunedPlain(t);
    RootedDoesNotStartBare(t);
    ScanSeesWhatEscapeChanges(s);
    ChangedTree(t, []);
    ChangedTree(p, []);
    RootedDoesNotStartBare(p);
    EscapeRestoresDocument(p);
  }
}
