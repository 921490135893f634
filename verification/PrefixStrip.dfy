/** Removing the attributes of the undeclared `junos` prefix. Two parts of the server
    do this with the same code. */
module PrefixStrip {
  import opened Prelude
  import opened Text

  const PREFIX := "junos:"

  function Skip(s: string, i: nat, stop: char -> bool): (r: nat)
    requires i <= |s|
    ensures i <= r <= |s| && (forall j :: i <= j < r ==> !stop(s[j])) && (r < |s| ==> stop(s[r]))
    decreases |s| - i
  {
    if i < |s| && !stop(s[i]) then Skip(s, i + 1, stop) else i
  }

  predicate IsAsciiSpace(c: char) { c == ' ' || c == '\t' || c == '\n' || c == '\r' || c == '\U{0C}' }

  /** Where the attribute that the text starts with ends. */
  function AttrEnd(s: string): (n: nat)
    ensures n <= |s| && (s != [] ==> n > 0)
  {
    var eq := Skip(s, 0, c => c == '=');
    if eq + 1 >= |s| then |s|
    else
      var quote := s[eq + 1];
      if quote != '"' && quote != '\'' then Skip(s, eq + 1, c => IsAsciiSpace(c) || c == '>')
      else
        var end := Skip(s, eq + 2, c => c == quote);
        if end < |s| then end + 1 else end
  }

  /** Without an `=`, or with none but the last character, all of the text is the attribute. */
  lemma NoValueNoEnd(s: string)
    requires forall i :: 0 <= i < |s| - 1 ==> s[i] != '='
    ensures AttrEnd(s) == |s|
  {}

  /** Otherwise a value in quotes ends with the next of the same quotes, and one without in
      front of the next space, tab, line feed, form feed, carriage return or `>`; if there is
      none, with the text. */
  lemma ValueEnds(s: string, eq: nat)
    requires eq + 1 < |s| && s[eq] == '=' && forall i :: 0 <= i < eq ==> s[i] != '='
    ensures var n, c := AttrEnd(s), s[eq + 1];
            if c == '"' || c == '\'' then
              || (n == |s| && forall i :: eq + 2 <= i < n ==> s[i] != c)
              || (eq + 3 <= n && s[n - 1] == c && forall i :: eq + 2 <= i < n - 1 ==> s[i] != c)
            else
              && eq + 1 <= n && (n < |s| ==> s[n] as int in ENDS) && forall i :: eq + 1 <= i < n ==> s[i] as int !in ENDS
  {
    SkipIs(s, 0, c => c == '=', eq);
    forall c: char ensures c as int in ENDS <==> IsAsciiSpace(c) || c == '>' {}
  }

  const ENDS: set<int> := {0x20, 0x09, 0x0A, 0x0C, 0x0D, 0x3E}

  lemma SkipIs(s: string, i: nat, stop: char -> bool, at: nat)
    requires i <= at < |s| && stop(s[at]) && forall j :: i <= j < at ==> !stop(s[j])
    ensures Skip(s, i, stop) == at
  {}

  /** The spaces in front are gone, all of them and nothing else. */
  lemma {:induction false} SpacesAreGone(s: string)
    ensures var r := TrimSpaces(s);
            && s[|s| - |r|..] == r && (forall i :: 0 <= i < |s| - |r| ==> s[i] == ' ') && (r != [] ==> r[0] != ' ')
  {
    if s != [] && s[0] == ' ' {
      SpacesAreGone(s[1..]);
      assert forall i :: 1 <= i < |s| ==> s[i] == s[1..][i - 1];
    }
  }

  method SkipTo(s: string, from: nat, stop: char -> bool) returns (i: nat)
    requires from <= |s|
    ensures i == Skip(s, from, stop)
  {
    i := from;
    while i < |s| && !stop(s[i])
      invariant i <= |s| && Skip(s, i, stop) == Skip(s, from, stop)
    {
      i := i + 1;
    }
  }

  method FindAttrEnd(s: string) returns (n: nat)
    ensures n == AttrEnd(s)
  {
    var i := SkipTo(s, 0, c => c == '=');
    if i >= |s| { return |s|; }
    i := i + 1;
    if i >= |s| { return |s|; }
    var quote := s[i];
    if quote != '"' && quote != '\'' {
      n := SkipTo(s, i, c => IsAsciiSpace(c) || c == '>');
    } else {
      i := SkipTo(s, i + 1, c => c == quote);
      n := if i < |s| then i + 1 else i;
    }
  }

  function TrimSpaces(s: string): (r: string)
    ensures |r| <= |s|
  {
    if s != [] && s[0] == ' ' then TrimSpaces(s[1..]) else s
  }

  function Stripped(s: string): string
    decreases |s|
  {
    if s == [] then []
    else if PREFIX <= s then Stripped(TrimSpaces(s[AttrEnd(s)..]))
    else [s[0]] + Stripped(s[1..])
  }

  /** The prefix starts nowhere in these first characters. */
  ghost predicate ClearUntil(s: string, n: nat) {
    n <= |s| && forall i :: 0 <= i < n ==> !(PREFIX <= s[i..])
  }

  lemma {:induction false} StrippedAfter(s: string, n: nat)
    requires ClearUntil(s, n)
    ensures Stripped(s) == s[..n] + Stripped(s[n..])
    decreases n
  {
    if n == 0 {
      assert s[0..] == s && s[..0] == [];
    } else {
      ClearBehind(s, n);
      StrippedAfter(s[1..], n - 1);
      StrippedFirst(s);
      FirstOfSlices(s, n);
      Regroup([s[0]], s[1..][..n - 1], Stripped(s[n..]));
    }
  }

  lemma StrippedFirst(s: string)
    requires s != [] && !(PREFIX <= s)
    ensures Stripped(s) == [s[0]] + Stripped(s[1..])
  {}

  lemma FirstOfSlices(s: string, n: nat)
    requires 0 < n <= |s|
    ensures s[1..][n - 1..] == s[n..] && s[..n] == [s[0]] + s[1..][..n - 1]
  {}

  lemma ClearBehind(s: string, n: nat)
    requires n > 0 && ClearUntil(s, n)
    ensures ClearUntil(s[1..], n - 1) && !(PREFIX <= s)
  {
    assert s[0..] == s;
    forall i | 0 <= i < n - 1 ensures !(PREFIX <= s[1..][i..]) {
      assert s[1..][i..] == s[i + 1..];
    }
  }

  lemma StripStep(rest: string, pos: Option<nat>)
    requires pos == Find(rest, PREFIX)
    ensures pos.None? ==> Stripped(rest) == rest
    ensures pos.Some? ==>
              var at := rest[pos.value..];
              at != [] && Stripped(rest) == rest[..pos.value] + Stripped(TrimSpaces(at[AttrEnd(at)..]))
  {
    if pos.None? {
      StrippedAfter(rest, |rest|);
    } else {
      assert PREFIX <= rest[pos.value..];
      StrippedAfter(rest, pos.value);
    }
  }

  method SimpleStripJunos(xml: string) returns (out: string)
    ensures out == Stripped(xml)
  {
    out := [];
    var rest := xml;
    var pos := Find(rest, PREFIX);
    while pos.Some?
      invariant pos == Find(rest, PREFIX)
      invariant out + Stripped(rest) == Stripped(xml)
      decreases |rest|
    {
      StripStep(rest, pos);
      var head, at := rest[..pos.value], rest[pos.value..];
      var end := FindAttrEnd(at);
      var after := TrimSpaces(at[end..]);
      Regroup(out, head, Stripped(after));
      out, rest := out + head, after;
      pos := Find(rest, PREFIX);
    }
    StripStep(rest, pos);
    out := out + rest;
  }

  // ----- tags with well-formed attributes -----

  /** A quoted attribute with the blanks in front of it and around its `=`. */
  datatype Attr = Attr(lead: string, name: string, before: string, after: string, quote: char, value: string)

  function Attrs(attrs: seq<Attr>, k: string): string {
    if attrs == [] then k else attrs[0].lead + AttrText(attrs[0], Attrs(attrs[1..], k))
  }

  function AttrText(a: Attr, k: string): string { a.name + (a.before + ("=" + (a.after + Quoted(a, k)))) }

  function Quoted(a: Attr, k: string): string { [a.quote] + (a.value + ([a.quote] + k)) }

  predicate OfPrefix(a: Attr) { PREFIX <= a.name }

  /** The quote directly follows the `=`. */
  predicate Tight(a: Attr) { a.after == [] }

  predicate Blank(s: string) { forall c <- s :: IsAsciiSpace(c) }

  /** The prefix occurs nowhere in the text. */
  ghost predicate Clear(s: string) { ClearUntil(s, |s|) }

  ghost predicate AttrOk(a: Attr) {
    && a.lead != [] && Blank(a.lead) && Blank(a.before) && Blank(a.after)
    && a.name != [] && a.name[0] != ' ' && '=' !in a.name && '>' !in a.name
    && (a.quote == '"' || a.quote == '\'') && a.quote !in a.value && '>' !in a.value
    && (OfPrefix(a) || Clear(a.name)) && ((OfPrefix(a) && Tight(a)) || Clear(a.value))
  }

  predicate AttrClosed(a: Attr) {
    && '>' !in a.lead && '>' !in a.name && '>' !in a.before && '>' !in a.after
    && a.quote != '>' && '>' !in a.value
  }

  lemma OkIsClosed(a: Attr)
    requires AttrOk(a)
    ensures AttrClosed(a)
  {}

  lemma {:induction false} NoBracketInAttrs(attrs: seq<Attr>, close: string)
    requires (forall a :: a in attrs ==> AttrClosed(a)) && '>' !in close
    ensures '>' !in Attrs(attrs, close)
  {
    if attrs != [] {
      assert attrs[0] in attrs;
      NoBracketInAttrs(attrs[1..], close);
      NoBracketInAttr(attrs[0], Attrs(attrs[1..], close));
    }
  }

  lemma NoBracketInAttr(a: Attr, k: string)
    requires AttrClosed(a) && '>' !in k
    ensures '>' !in a.lead + AttrText(a, k)
  {
    assert '>' !in Quoted(a, k);
    assert '>' !in AttrText(a, k);
  }

  predicate IsPrefixChar(c: char) { c == 'j' || c == 'u' || c == 'n' || c == 'o' || c == 's' || c == ':' }

  /** What may follow a token: nothing that could complete the prefix. */
  predicate Apart(k: string) { k == [] || !IsPrefixChar(k[0]) }

  lemma NoStraddle(t: string, k: string, i: nat)
    requires Clear(t) && Apart(k) && i < |t|
    ensures !(PREFIX <= (t + k)[i..])
  {
    var s, cut := t + k, |t| - i;
    assert s[i..] == t[i..] + k;
    assert !(PREFIX <= t[i..]);
    assert s[i..][..cut] == t[i..];
    assert forall n :: 0 <= n < |PREFIX| ==> IsPrefixChar(PREFIX[n]);
    assert cut < |s[i..]| ==> s[i..][cut] == k[0];
  }

  lemma StrippedClear(t: string, k: string)
    requires Clear(t) && Apart(k)
    ensures Stripped(t + k) == t + Stripped(k)
  {
    var s := t + k;
    forall i | 0 <= i < |t| ensures !(PREFIX <= s[i..]) {
      NoStraddle(t, k, i);
    }
    StrippedAfter(s, |t|);
    assert s[..|t|] == t && s[|t|..] == k;
  }

  lemma StrippedChar(c: char, k: string)
    requires c != 'j'
    ensures Stripped([c] + k) == [c] + Stripped(k)
  {
    var s := [c] + k;
    assert s[0] == c && s[1..] == k;
    assert PREFIX[0] == 'j';
  }

  lemma {:induction false} StrippedBlanks(b: string, k: string)
    requires Blank(b)
    ensures Stripped(b + k) == b + Stripped(k)
  {
    if b == [] {
      assert b + k == k && b + Stripped(k) == Stripped(k);
    } else {
      StrippedBlanks(b[1..], k);
      FirstApart(b, k);
      FirstApart(b, Stripped(k));
      assert IsAsciiSpace(b[0]);
      StrippedChar(b[0], b[1..] + k);
    }
  }

  lemma FirstApart(b: string, k: string)
    requires b != []
    ensures b + k == [b[0]] + (b[1..] + k)
  {}

  lemma {:induction false} TrimOfBlanks(b: string, k: string)
    requires k == [] || k[0] != ' '
    ensures TrimSpaces(b + k) == TrimSpaces(b) + k
  {
    if b == [] {
      assert b + k == k;
    } else {
      assert (b + k)[1..] == b[1..] + k;
      TrimOfBlanks(b[1..], k);
    }
  }

  lemma {:induction false} TrimIsBlank(b: string)
    requires Blank(b)
    ensures Blank(TrimSpaces(b))
  {
    if b != [] && b[0] == ' ' {
      TrimIsBlank(b[1..]);
    }
  }

  lemma StrippedQuoted(a: Attr, k: string)
    requires AttrOk(a) && Clear(a.value)
    ensures Stripped(Quoted(a, k)) == Quoted(a, Stripped(k))
  {
    StrippedChar(a.quote, k);
    StrippedClear(a.value, [a.quote] + k);
    StrippedChar(a.quote, a.value + ([a.quote] + k));
  }

  lemma StrippedKeeps(a: Attr, k: string)
    requires AttrOk(a) && !OfPrefix(a)
    ensures Stripped(AttrText(a, k)) == AttrText(a, Stripped(k))
  {
    StrippedQuoted(a, k);
    StrippedBlanks(a.after, Quoted(a, k));
    StrippedChar('=', a.after + Quoted(a, k));
    StrippedBlanks(a.before, "=" + (a.after + Quoted(a, k)));
    BlanksAreApart(a.before, "=" + (a.after + Quoted(a, k)));
    StrippedClear(a.name, a.before + ("=" + (a.after + Quoted(a, k))));
  }

  lemma BlanksAreApart(b: string, k: string)
    requires Blank(b) && Apart(k)
    ensures Apart(b + k)
  {
    if b == [] {
      assert b + k == k;
    } else {
      assert b[0] in b && (b + k)[0] == b[0];
    }
  }

  /** Where the `=` of an attribute stands. */
  lemma EqualsSign(a: Attr, k: string)
    requires AttrOk(a)
    ensures Skip(AttrText(a, k), 0, c => c == '=') == |a.name| + |a.before|
  {
    var s, n := AttrText(a, k), |a.name| + |a.before|;
    assert s == (a.name + a.before) + ("=" + (a.after + Quoted(a, k)));
    assert s[n] == '=';
    forall j | 0 <= j < n ensures s[j] != '=' {
      if j < |a.name| {
        assert s[j] == a.name[j] && a.name[j] in a.name;
      } else {
        assert s[j] == a.before[j - |a.name|] && a.before[j - |a.name|] in a.before;
      }
    }
  }

  lemma EndBehindQuote(s: string, eq: nat, last: nat)
    requires Skip(s, 0, c => c == '=') == eq && eq + 2 <= |s| && (s[eq + 1] == '"' || s[eq + 1] == '\'')
    requires last < |s| && Skip(s, eq + 2, c => c == s[eq + 1]) == last
    ensures AttrEnd(s) == last + 1
  {}

  lemma EndBehindEquals(s: string, eq: nat)
    requires Skip(s, 0, c => c == '=') == eq && eq + 1 < |s| && IsAsciiSpace(s[eq + 1])
    ensures AttrEnd(s) == eq + 1
  {}

  /** The end of a quoted attribute: behind its closing quote if the opening one directly
      follows the `=`, and otherwise directly behind the `=`. */
  lemma AttrEndIsItsEnd(a: Attr, k: string)
    requires AttrOk(a)
    ensures Tight(a) ==> AttrEnd(AttrText(a, k)) == |AttrText(a, k)| - |k|
    ensures !Tight(a) ==> AttrEnd(AttrText(a, k)) == |AttrText(a, k)| - |a.after + Quoted(a, k)|
  {
    AttrEndOf(AttrText(a, k), |a.name| + |a.before|, a, k) by {
      EqualsSign(a, k);
      BehindEquals(a, k);
    }
  }

  lemma AttrEndOf(s: string, eq: nat, a: Attr, k: string)
    requires AttrOk(a) && Skip(s, 0, c => c == '=') == eq && |s| == eq + 1 + |a.after + Quoted(a, k)|
    requires s[eq + 1..] == a.after + Quoted(a, k)
    ensures Tight(a) ==> AttrEnd(s) == |s| - |k|
    ensures !Tight(a) ==> AttrEnd(s) == |s| - |a.after + Quoted(a, k)|
  {
    assert s[eq + 1..][0] == s[eq + 1];
    if Tight(a) {
      assert a.after + Quoted(a, k) == Quoted(a, k);
      EndOfQuoted(s, eq + 1, a, k);
      EndBehindQuote(s, eq, eq + 2 + |a.value|);
    } else {
      assert s[eq + 1] == a.after[0] && a.after[0] in a.after;
      EndBehindEquals(s, eq);
    }
  }

  lemma BehindEquals(a: Attr, k: string)
    ensures var n := |a.name| + |a.before|;
            |AttrText(a, k)| == n + 1 + |a.after + Quoted(a, k)| && AttrText(a, k)[n + 1..] == a.after + Quoted(a, k)
  {
    var left := a.after + Quoted(a, k);
    assert AttrText(a, k) == (a.name + a.before + "=") + left;
  }

  lemma EndOfQuoted(s: string, at: nat, a: Attr, k: string)
    requires at <= |s| && s[at..] == Quoted(a, k) && a.quote !in a.value
    ensures at + 1 <= |s| && Skip(s, at + 1, c => c == a.quote) == at + 1 + |a.value|
    ensures |s| == at + 2 + |a.value| + |k|
  {
    var last := at + 1 + |a.value|;
    assert |s[at..]| == 2 + |a.value| + |k|;
    assert forall j :: 0 <= j < |s| - at ==> s[at + j] == Quoted(a, k)[j];
    assert s[last] == Quoted(a, k)[1 + |a.value|] == a.quote;
    forall j | at + 1 <= j < last ensures s[j] != a.quote {
      assert s[j] == Quoted(a, k)[j - at] == a.value[j - at - 1] && a.value[j - at - 1] in a.value;
    }
  }

  lemma NameInFront(a: Attr, k: string)
    requires OfPrefix(a)
    ensures PREFIX <= AttrText(a, k)
  {
    assert AttrText(a, k)[..|a.name|] == a.name;
  }

  lemma EndOfAttr(a: Attr, k: string)
    requires Tight(a)
    ensures |AttrText(a, k)| >= |k| && AttrText(a, k)[|AttrText(a, k)| - |k|..] == k
  {
    BehindEquals(a, k);
    assert a.after + Quoted(a, k) == ([a.quote] + a.value + [a.quote]) + k;
  }

  lemma StrippedAttr(s: string, left: string)
    requires PREFIX <= s && |left| <= |s| && AttrEnd(s) == |s| - |left| && s[|s| - |left|..] == left
    ensures Stripped(s) == Stripped(TrimSpaces(left))
  {}

  lemma StrippedDrops(a: Attr, k: string)
    requires AttrOk(a) && OfPrefix(a) && Tight(a)
    ensures Stripped(AttrText(a, k)) == Stripped(TrimSpaces(k))
  {
    StrippedAttr(AttrText(a, k), k) by {
      AttrEndIsItsEnd(a, k);
      EndOfAttr(a, k);
      NameInFront(a, k);
    }
  }

  /** An attribute of the prefix with a blank behind its `=` loses its name only. */
  lemma StrippedLeavesValue(a: Attr, k: string)
    requires AttrOk(a) && OfPrefix(a) && !Tight(a)
    ensures Stripped(AttrText(a, k)) == TrimSpaces(a.after) + Quoted(a, Stripped(k))
  {
    StrippedAttr(AttrText(a, k), a.after + Quoted(a, k)) by {
      AttrEndIsItsEnd(a, k);
      BehindEquals(a, k);
      NameInFront(a, k);
    }
    TrimmedValue(a, k);
  }

  lemma TrimmedValue(a: Attr, k: string)
    requires AttrOk(a) && Clear(a.value)
    ensures Stripped(TrimSpaces(a.after + Quoted(a, k))) == TrimSpaces(a.after) + Quoted(a, Stripped(k))
  {
    TrimOfBlanks(a.after, Quoted(a, k));
    TrimIsBlank(a.after);
    StrippedBlanks(TrimSpaces(a.after), Quoted(a, k));
    StrippedQuoted(a, k);
  }

  /** What the strip makes of attributes and the text behind them, the blanks in front
      trimmed if an attribute was just removed. */
  function Remains(attrs: seq<Attr>, trim: bool, k: string): string {
    if attrs == [] then Stripped(if trim then TrimSpaces(k) else k)
    else
      var a := attrs[0];
      var lead := if trim then TrimSpaces(a.lead) else a.lead;
      if !OfPrefix(a) then lead + AttrText(a, Remains(attrs[1..], false, k))
      else if Tight(a) then lead + Remains(attrs[1..], true, k)
      else lead + (TrimSpaces(a.after) + Quoted(a, Remains(attrs[1..], false, k)))
  }

  lemma {:induction false} StrippedAttrs(attrs: seq<Attr>, trim: bool, k: string)
    requires forall a :: a in attrs ==> AttrOk(a)
    ensures Stripped(if trim then TrimSpaces(Attrs(attrs, k)) else Attrs(attrs, k)) == Remains(attrs, trim, k)
    decreases |attrs|
  {
    if attrs != [] {
      var a, rest := attrs[0], attrs[1..];
      assert a in attrs;
      StrippedAttrs(rest, false, k);
      StrippedAttrs(rest, true, k);
      StrippedLead(a, trim, Attrs(rest, k));
      if !OfPrefix(a) {
        StrippedKeeps(a, Attrs(rest, k));
      } else if Tight(a) {
        StrippedDrops(a, Attrs(rest, k));
      } else {
        StrippedLeavesValue(a, Attrs(rest, k));
      }
    }
  }

  lemma StrippedLead(a: Attr, trim: bool, k: string)
    requires AttrOk(a)
    ensures var s, lead := a.lead + AttrText(a, k), if trim then TrimSpaces(a.lead) else a.lead;
            Stripped(if trim then TrimSpaces(s) else s) == lead + Stripped(AttrText(a, k))
  {
    assert AttrText(a, k)[0] == a.name[0];
    TrimOfBlanks(a.lead, AttrText(a, k));
    TrimIsBlank(a.lead);
    StrippedBlanks(TrimSpaces(a.lead), AttrText(a, k));
    StrippedBlanks(a.lead, AttrText(a, k));
  }

  // ----- what stays, as attributes -----

  /** The attributes not of the prefix. */
  function Kept(attrs: seq<Attr>): seq<Attr> {
    if attrs == [] then []
    else if OfPrefix(attrs[0]) then Kept(attrs[1..])
    else [attrs[0]] + Kept(attrs[1..])
  }

  /** They with the blanks the strip leaves in front of them: those carried over from
      removed attributes, and their own, without spaces behind a removed one. */
  function Moved(attrs: seq<Attr>, carry: string, trim: bool): seq<Attr> {
    if attrs == [] then []
    else
      var a := attrs[0];
      var lead := carry + if trim then TrimSpaces(a.lead) else a.lead;
      if OfPrefix(a) then Moved(attrs[1..], lead, true) else [a.(lead := lead)] + Moved(attrs[1..], [], false)
  }

  /** And what the strip leaves of the text between the last attribute and the `>`. */
  function MovedClose(attrs: seq<Attr>, carry: string, trim: bool, close: string): string {
    if attrs == [] then carry + if trim then TrimSpaces(close) else close
    else
      var lead := carry + if trim then TrimSpaces(attrs[0].lead) else attrs[0].lead;
      if OfPrefix(attrs[0]) then MovedClose(attrs[1..], lead, true, close) else MovedClose(attrs[1..], [], false, close)
  }

  /** Only blanks move: what stays are the attributes not of the prefix, in order, each
      still behind a blank. */
  lemma {:induction false} OnlyBlanksMove(attrs: seq<Attr>, carry: string, trim: bool)
    requires (forall a :: a in attrs ==> a.lead != [] && Blank(a.lead)) && Blank(carry) && (trim ==> carry != [])
    ensures var moved, kept := Moved(attrs, carry, trim), Kept(attrs);
            && |moved| == |kept|
            && forall i :: 0 <= i < |kept| ==>
                             && moved[i] == kept[i].(lead := moved[i].lead)
                             && moved[i].lead != [] && Blank(moved[i].lead)
    decreases |attrs|
  {
    if attrs != [] {
      var a := attrs[0];
      var lead := carry + if trim then TrimSpaces(a.lead) else a.lead;
      assert a in attrs;
      TrimIsBlank(a.lead);
      OnlyBlanksMove(attrs[1..], if OfPrefix(a) then lead else [], OfPrefix(a));
    }
  }

  /** For an attribute of the prefix another value does not show exactly when the quote
      directly follows the `=`. */
  lemma ValueShowsExactlyWhen(a: Attr, value: string, k: string)
    requires AttrOk(a) && AttrOk(a.(value := value)) && OfPrefix(a) && value != a.value
    ensures Stripped(AttrText(a, k)) == Stripped(AttrText(a.(value := value), k)) <==> Tight(a)
  {
    var b := a.(value := value);
    if Tight(a) {
      StrippedDrops(a, k);
      StrippedDrops(b, k);
    } else {
      StrippedLeavesValue(a, k);
      StrippedLeavesValue(b, k);
      SameQuotedSameValue(TrimSpaces(a.after), a, b, Stripped(k));
    }
  }

  lemma SameQuotedSameValue(front: string, a: Attr, b: Attr, k: string)
    requires a.quote == b.quote && a.quote !in a.value && b.quote !in b.value
    ensures front + Quoted(a, k) == front + Quoted(b, k) ==> a.value == b.value
  {
    var s, t := front + Quoted(a, k), front + Quoted(b, k);
    if s == t {
      assert s[|front|..] == Quoted(a, k) && t[|front|..] == Quoted(b, k);
      EndOfQuoted(s, |front|, a, k);
      EndOfQuoted(t, |front|, b, k);
      ValueOfQuoted(a, k);
      ValueOfQuoted(b, k);
    }
  }

  lemma ValueOfQuoted(a: Attr, k: string)
    ensures Quoted(a, k)[1..1 + |a.value|] == a.value
  {}
}
