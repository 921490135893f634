/** Finding the commit-log entry a crashed commit left behind.

    The device prints an entry as a numbered header line and its comment on indented
    lines below. Only the header says whether the commit was a confirmed one, so the
    lookup has to group lines back into entries. */
module CommitLog {
  import opened Prelude
  import opened Text

  predicate IsHeader(line: string) {
    var trimmed := TrimStart(line);
    var w := FirstWhitespace(trimmed);
    && 0 < w < |trimmed| && (forall i :: 0 <= i < w ==> IsDigit(trimmed[i]))
    && !(" " <= line)
  }

  function Needle(id: string): string { "request.id=" + id }

  /** A header is a line that does not start with a space and whose first word, behind other
      whitespace if any, is a number with something behind it. */
  lemma HeadersStartWithANumber(line: string)
    ensures IsHeader(line) <==> (line != [] ==> line[0] != ' ') && exists i: nat, w: nat :: NumberAt(line, i, w)
  {
    TrimStartTakesBlanks(line);
    FirstWordIsANumber(line, TrimStart(line));
    assert " " <= line <==> line != [] && line[0] == ' ';
  }

  lemma FirstWordIsANumber(line: string, trimmed: string)
    requires |trimmed| <= |line| && line[|line| - |trimmed|..] == trimmed && (trimmed != [] ==> !IsWhitespace(trimmed[0]))
    requires forall k :: 0 <= k < |line| - |trimmed| ==> IsWhitespace(line[k])
    ensures (var w := FirstWhitespace(trimmed); 0 < w < |trimmed| && forall i :: 0 <= i < w ==> IsDigit(trimmed[i]))
       <==> exists i: nat, w: nat :: NumberAt(line, i, w)
  {
    var n, word := |line| - |trimmed|, FirstWhitespace(trimmed);
    assert forall k :: n <= k < |line| ==> line[k] == trimmed[k - n];
    if 0 < word < |trimmed| && forall i :: 0 <= i < word ==> IsDigit(trimmed[i]) {
      assert NumberAt(line, n, n + word);
    }
    forall i: nat, w: nat | NumberAt(line, i, w)
      ensures 0 < word < |trimmed| && forall k :: 0 <= k < word ==> IsDigit(trimmed[k])
    {
      assert !IsWhitespace(line[i]) && i <= n;
      assert i == n;
      assert IsWhitespace(trimmed[w - n]) && word <= w - n;
      forall k | 0 <= k < word ensures IsDigit(trimmed[k]) { assert line[n + k] == trimmed[k]; }
    }
  }

  /** Whitespace up to `i`, digits up to `w`, whitespace there. */
  ghost predicate NumberAt(line: string, i: nat, w: nat) {
    && i < w < |line|
    && (forall k :: 0 <= k < i ==> IsWhitespace(line[k])) && (forall k :: i <= k < w ==> IsDigit(line[k]))
    && IsWhitespace(line[w])
  }

  /** A line carries an id exactly if `request.id=` stands in it directly in front of the id. */
  lemma CarriesTheKey(id: string, line: string)
    ensures Carries(id)(line) <==> exists i: nat :: KeyAt(line, i, id)
  {
    var key, n := "request.id=", 11 + |id|;
    assert |Needle(id)| == n && Needle(id) == key + id;
    forall i: nat | i <= |line| ensures Needle(id) <= line[i..] <==> KeyAt(line, i, id) {
      if i + n <= |line| {
        assert line[i..][..n] == line[i..i + 11] + line[i + 11..i + n];
        assert line[i..i + 11] == line[i..][..n][..11] && line[i + 11..i + n] == line[i..][..n][11..];
        assert Needle(id) <= line[i..] <==> line[i..][..n] == Needle(id);
      }
    }
  }

  ghost predicate KeyAt(line: string, i: nat, id: string) {
    i + 11 + |id| <= |line| && line[i..i + 11] == "request.id=" && line[i + 11..i + 11 + |id|] == id
  }

  /** The lines of a text, each with the offset it starts at, and where the text ends. */
  datatype Located = End(at: nat) | Line(at: nat, line: string, next: Located)

  function LineOffsets(text: string, base: nat): Located {
    if text == [] then End(base)
    else
      var n := LineEnd(text);
      if n == |text| then Line(base, text, End(base + n))
      else Line(base, StripCr(text[..n]), LineOffsets(text[n + 1..], base + n + 1))
  }

  /** The scan, for any notion of header line and of a line that hits: the header of the
      entry being read, and where the entry that was hit starts. The result is where the
      entry starts and ends. */
  function Scan(lines: Located, header: string -> bool, hits: string -> bool, current: Option<nat>,
                start: Option<nat>): Option<(nat, nat)>
  {
    if lines.End? || (header(lines.line) && start.Some?) then
      if start.Some? then Some((start.value, lines.at)) else None
    else
      var current' := if header(lines.line) then Some(lines.at) else current;
      var start' := if hits(lines.line) then (if current'.Some? then current' else Some(lines.at)) else start;
      Scan(lines.next, header, hits, current', start')
  }

  function Carries(id: string): string -> bool { line => Contains(line, Needle(id)) }

  /** The text between two offsets, right-trimmed. */
  function Slice(log: string, at: Option<(nat, nat)>): Option<string> {
    if at.Some? && at.value.0 <= at.value.1 <= |log| then Some(TrimEnd(log[at.value.0..at.value.1])) else None
  }

  function Lookup(log: string, id: string): Option<string> {
    if id == [] then None else Slice(log, Scan(LineOffsets(log, 0), IsHeader, Carries(id), None, None))
  }

  method CommitEntryForRequestId(log: string, id: string) returns (entry: Option<string>)
    ensures entry == Lookup(log, id)
  {
    if id == [] { return None; }
    var at := ScanLoop(LineOffsets(log, 0), IsHeader, Carries(id));
    entry := Slice(log, at);
  }

  method ScanLoop(lines: Located, header: string -> bool, hits: string -> bool) returns (at: Option<(nat, nat)>)
    ensures at == Scan(lines, header, hits, None, None)
  {
    var start: Option<nat>, current: Option<nat>, hit, rest := None, None, false, lines;
    while rest.Line?
      decreases rest
      invariant hit <==> start.Some?
      invariant Scan(rest, header, hits, current, start) == Scan(lines, header, hits, None, None)
    {
      var Line(offset, line, next) := rest;
      if header(line) {
        if hit { return Some((start.value, offset)); }
        current := Some(offset);
      }
      if hits(line) {
        hit := true;
        start := if current.Some? then current else Some(offset);
      }
      rest := next;
    }
    return if hit then Some((start.value, rest.at)) else None;
  }

  function EntryIsConfirmedCommit(entry: string): bool {
    Lines(entry) != [] && Contains(Lines(entry)[0], "commit confirmed")
  }

  // ----- what the device prints -----

  datatype Entry = Entry(header: string, comments: seq<string>)

  /** A number, a space, anything else on one line; comment lines start with a space. */
  ghost predicate Printable(e: Entry) {
    && IsLine(e.header)
    && (exists k :: 0 < k < |e.header| && e.header[k] == ' ' && forall i :: 0 <= i < k ==> IsDigit(e.header[i]))
    && forall c :: c in e.comments ==> IsLine(c) && " " <= c
  }

  function Print(e: Entry): string { e.header + "\n" + Unlines(e.comments) }

  function PrintLog(entries: seq<Entry>): string {
    if entries == [] then [] else Print(entries[0]) + PrintLog(entries[1..])
  }

  function FirstWith(entries: seq<Entry>, needle: string): Option<Entry> {
    if entries == [] then None
    else if Contains(Print(entries[0]), needle) then Some(entries[0])
    else FirstWith(entries[1..], needle)
  }

  // ----- an occurrence never spans lines -----

  lemma ContainsAcrossNewline(l: string, rest: string, needle: string)
    requires needle != [] && '\n' !in needle
    ensures Contains(l + "\n" + rest, needle) <==> Contains(l, needle) || Contains(rest, needle)
  {
    var s := l + "\n" + rest;
    if Contains(l, needle) {
      var i :| 0 <= i <= |l| && needle <= l[i..];
      assert s[i..] == l[i..] + ("\n" + rest);
    }
    if Contains(rest, needle) {
      var i :| 0 <= i <= |rest| && needle <= rest[i..];
      assert s[|l| + 1 + i..] == rest[i..];
    }
    if Contains(s, needle) {
      var i :| 0 <= i <= |s| && needle <= s[i..];
      forall k | 0 <= k < |needle| ensures s[i + k] == needle[k] && s[i + k] != '\n' {
        assert s[i..][k] == needle[k];
        assert needle[k] in needle;
      }
      assert s[|l|] == '\n';
      if i <= |l| {
        if |l| < i + |needle| {
          assert false;
        }
        assert needle <= l[i..];
      } else {
        assert s[i..] == rest[i - |l| - 1..];
      }
    }
  }

  lemma {:induction false} ContainsInLines(ls: seq<string>, needle: string)
    requires needle != [] && '\n' !in needle
    ensures Contains(Unlines(ls), needle) <==> exists l :: l in ls && Contains(l, needle)
  {
    if ls == [] {
      assert forall i :: 0 <= i <= |Unlines(ls)| ==> Unlines(ls)[i..] == [];
    } else {
      ContainsInLines(ls[1..], needle);
      ContainsAcrossNewline(ls[0], Unlines(ls[1..]), needle);
      assert forall l :: l in ls <==> l == ls[0] || l in ls[1..];
    }
  }

  // ----- the scan over a printed log -----

  lemma PrintedHeaderIsHeader(e: Entry)
    requires Printable(e)
    ensures IsHeader(e.header)
  {
    var h := e.header;
    var k :| 0 < k < |h| && h[k] == ' ' && forall i :: 0 <= i < k ==> IsDigit(h[i]);
    assert IsDigit(h[0]);
    NothingToTrim(h);
    FirstWhitespaceAt(h, k);
  }

  lemma NothingToTrim(h: string)
    requires h != [] && !IsWhitespace(h[0])
    ensures TrimStart(h) == h
  {}

  lemma FirstWhitespaceAt(h: string, k: nat)
    requires k < |h| && h[k] == ' ' && forall i :: 0 <= i < k ==> IsDigit(h[i])
    ensures FirstWhitespace(h) == k
  {
    var w := FirstWhitespace(h);
    assert w < k ==> IsDigit(h[w]);
  }

  lemma LineOffsetsCons(text: string, l: string, tail: string, base: nat)
    requires IsLine(l) && text == l + "\n" + tail
    ensures LineOffsets(text, base) == Line(base, l, LineOffsets(tail, base + |l| + 1))
  {
    LineEndOf(l, tail);
    assert text[..|l|] == l && text[|l| + 1..] == tail;
  }

  /** Lines written one after another from `base`, and then `after`. */
  function Placed(ls: seq<string>, base: nat, after: Located): Located {
    if ls == [] then after else Line(base, ls[0], Placed(ls[1..], base + |ls[0]| + 1, after))
  }

  lemma UnlinesCons(ls: seq<string>, rest: string) returns (tail: string)
    requires ls != []
    ensures tail == Unlines(ls[1..]) + rest
    ensures Unlines(ls) + rest == ls[0] + "\n" + tail
    ensures |Unlines(ls)| == |ls[0]| + 1 + |Unlines(ls[1..])|
  {
    tail := Unlines(ls[1..]) + rest;
    assert Unlines(ls) == ls[0] + "\n" + Unlines(ls[1..]);
  }

  /** What reading a log back needs of a way to cut text into lines: the proofs use no more
      of `LineOffsets` and `IsLine` than this. */
  ghost predicate Cuts(cut: (string, nat) -> Located, good: string -> bool) {
    && (forall base: nat :: cut([], base) == End(base))
    && (forall l, tail, base: nat :: good(l) ==> cut(l + "\n" + tail, base) == Line(base, l, cut(tail, base + |l| + 1)))
  }

  lemma LineOffsetsCuts()
    ensures Cuts(LineOffsets, IsLine)
  {
    forall l, tail, base: nat | IsLine(l)
      ensures LineOffsets(l + "\n" + tail, base) == Line(base, l, LineOffsets(tail, base + |l| + 1))
    {
      LineOffsetsCons(l + "\n" + tail, l, tail, base);
    }
  }

  lemma {:induction false} CutUnlines(ls: seq<string>, rest: string, base: nat, cut: (string, nat) -> Located,
                                      good: string -> bool)
    requires Cuts(cut, good) && forall l :: l in ls ==> good(l)
    ensures cut(Unlines(ls) + rest, base) == Placed(ls, base, cut(rest, base + |Unlines(ls)|))
    decreases |ls|
  {
    if ls == [] {
      assert Unlines(ls) + rest == rest;
    } else {
      var tail := UnlinesCons(ls, rest);
      CutUnlines(ls[1..], rest, base + |ls[0]| + 1, cut, good);
    }
  }

  /** What the scan needs to know of an entry. */
  ghost predicate Scannable(e: Entry, good: string -> bool, header: string -> bool) {
    good(e.header) && header(e.header) && forall c :: c in e.comments ==> good(c) && !header(c)
  }

  predicate Hit(e: Entry, hits: string -> bool) {
    hits(e.header) || exists c :: c in e.comments && hits(c)
  }

  function FirstHit(entries: seq<Entry>, hits: string -> bool): Option<Entry> {
    if entries == [] then None
    else if Hit(entries[0], hits) then Some(entries[0])
    else FirstHit(entries[1..], hits)
  }

  /** The lines of a log written from `base`. */
  function LogLines(entries: seq<Entry>, base: nat): Located {
    if entries == [] then End(base)
    else
      var e := entries[0];
      Line(base, e.header, Placed(e.comments, base + |e.header| + 1, LogLines(entries[1..], base + |Print(e)|)))
  }

  lemma {:induction false} CutLog(entries: seq<Entry>, base: nat, cut: (string, nat) -> Located,
                                  good: string -> bool, header: string -> bool)
    requires Cuts(cut, good) && forall e :: e in entries ==> Scannable(e, good, header)
    ensures cut(PrintLog(entries), base) == LogLines(entries, base)
    decreases |entries|
  {
    if entries != [] {
      var e, after := entries[0], PrintLog(entries[1..]);
      assert e in entries;
      var text, tail := PrintLogCons(entries);
      CutLog(entries[1..], base + |Print(e)|, cut, good, header);
      CutUnlines(e.comments, after, base + |e.header| + 1, cut, good);
    }
  }

  lemma PrintLogCons(entries: seq<Entry>) returns (text: string, tail: string)
    requires entries != []
    ensures text == PrintLog(entries) && tail == Unlines(entries[0].comments) + PrintLog(entries[1..])
    ensures text == entries[0].header + "\n" + tail
    ensures |Print(entries[0])| == |entries[0].header| + 1 + |Unlines(entries[0].comments)|
  {
    text, tail := PrintLog(entries), Unlines(entries[0].comments) + PrintLog(entries[1..]);
    assert text == entries[0].header + "\n" + tail;
  }

  function StartIf(hit: bool, at: nat): Option<nat> { if hit then Some(at) else None }

  lemma {:induction false} ScanComments(comments: seq<string>, base: nat, after: Located,
                                        header: string -> bool, hits: string -> bool, at: nat, hit: bool)
    requires forall c :: c in comments ==> !header(c)
    ensures Scan(Placed(comments, base, after), header, hits, Some(at), StartIf(hit, at))
         == Scan(after, header, hits, Some(at), StartIf(hit || exists c :: c in comments && hits(c), at))
    decreases |comments|
  {
    if comments != [] {
      var c, more := comments[0], comments[1..];
      assert c in comments;
      ScanComments(more, base + |c| + 1, after, header, hits, at, hit || hits(c));
      assert forall x :: x in comments <==> x == c || x in more;
    }
  }

  /** Where the first entry that was hit is written. */
  function FirstHitAt(entries: seq<Entry>, base: nat, hits: string -> bool): Option<(nat, nat)> {
    if entries == [] then None
    else
      var next := base + |Print(entries[0])|;
      if Hit(entries[0], hits) then Some((base, next)) else FirstHitAt(entries[1..], next, hits)
  }

  lemma ScanEntry(e: Entry, base: nat, after: Located, good: string -> bool, header: string -> bool,
                  hits: string -> bool, current: Option<nat>)
    requires Scannable(e, good, header)
    ensures Scan(Line(base, e.header, Placed(e.comments, base + |e.header| + 1, after)), header, hits, current, None)
         == Scan(after, header, hits, Some(base), StartIf(Hit(e, hits), base))
  {
    ScanComments(e.comments, base + |e.header| + 1, after, header, hits, base, hits(e.header));
  }

  /** With a hit behind it, the scan stops at the next header or at the end. */
  lemma ScanStops(entries: seq<Entry>, base: nat, good: string -> bool, header: string -> bool, hits: string -> bool,
                  at: nat)
    requires forall e :: e in entries ==> Scannable(e, good, header)
    ensures Scan(LogLines(entries, base), header, hits, Some(at), Some(at)) == Some((at, base))
  {
    if entries != [] {
      assert entries[0] in entries;
    }
  }

  lemma {:induction false} ScanLog(entries: seq<Entry>, base: nat, good: string -> bool, header: string -> bool,
                                   hits: string -> bool, current: Option<nat>)
    requires forall e :: e in entries ==> Scannable(e, good, header)
    ensures Scan(LogLines(entries, base), header, hits, current, None) == FirstHitAt(entries, base, hits)
    decreases |entries|
  {
    if entries != [] {
      var e, more, next := entries[0], entries[1..], base + |Print(entries[0])|;
      assert e in entries;
      ScanEntry(e, base, LogLines(more, next), good, header, hits, current);
      if Hit(e, hits) {
        ScanStops(more, next, good, header, hits, base);
      } else {
        ScanLog(more, next, good, header, hits, Some(base));
      }
    }
  }

  lemma {:induction false} FirstHitIsThere(entries: seq<Entry>, before: string, hits: string -> bool)
    ensures var log, found := before + PrintLog(entries), FirstHit(entries, hits);
            var at := FirstHitAt(entries, |before|, hits);
            (at.Some? <==> found.Some?)
            && (found.Some? ==> at.value.0 <= at.value.1 <= |log| && log[at.value.0..at.value.1] == Print(found.value))
    decreases |entries|
  {
    if entries != [] {
      var log, next := before + PrintLog(entries), before + Print(entries[0]);
      assert log == next + PrintLog(entries[1..]);
      if Hit(entries[0], hits) {
        assert log[|before|..|next|] == Print(entries[0]);
      } else {
        FirstHitIsThere(entries[1..], next, hits);
      }
    }
  }

  /** A line of the entry carries the needle exactly when its text contains it. */
  lemma HitIsContainment(e: Entry, id: string)
    requires '\n' !in id
    ensures Hit(e, Carries(id)) <==> Contains(Print(e), Needle(id))
  {
    ContainsAcrossNewline(e.header, Unlines(e.comments), Needle(id));
    ContainsInLines(e.comments, Needle(id));
  }

  lemma {:induction false} FirstHitIsFirstWith(entries: seq<Entry>, id: string)
    requires '\n' !in id
    ensures FirstHit(entries, Carries(id)) == FirstWith(entries, Needle(id))
  {
    if entries != [] {
      HitIsContainment(entries[0], id);
      FirstHitIsFirstWith(entries[1..], id);
    }
  }

  // ----- main results -----

  /** Looking an id up in a printed log gives the first entry that contains it, header
      included and right-trimmed, and nothing exactly when no entry contains it. */
  lemma LookupInvertsPrinting(entries: seq<Entry>, id: string)
    requires id != [] && '\n' !in id && forall e :: e in entries ==> Printable(e)
    ensures var found := FirstWith(entries, Needle(id));
            Lookup(PrintLog(entries), id) == if found.Some? then Some(TrimEnd(Print(found.value))) else None
  {
    forall e | e in entries ensures Scannable(e, IsLine, IsHeader) {
      PrintedHeaderIsHeader(e);
    }
    LineOffsetsCuts();
    CutLog(entries, 0, LineOffsets, IsLine, IsHeader);
    ScanLog(entries, 0, IsLine, IsHeader, Carries(id), None);
    assert [] + PrintLog(entries) == PrintLog(entries);
    FirstHitIsThere(entries, [], Carries(id));
    FirstHitIsFirstWith(entries, id);
  }

  lemma {:induction false} FoundIffSomeEntryContains(entries: seq<Entry>, needle: string)
    ensures FirstWith(entries, needle).None? <==> forall e :: e in entries ==> !Contains(Print(e), needle)
    ensures FirstWith(entries, needle).Some? ==>
              exists k :: 0 <= k < |entries| && entries[k] == FirstWith(entries, needle).value
                          && Contains(Print(entries[k]), needle)
                          && forall j :: 0 <= j < k ==> !Contains(Print(entries[j]), needle)
  {
    if entries != [] && !Contains(Print(entries[0]), needle) {
      FoundIffSomeEntryContains(entries[1..], needle);
      if FirstWith(entries, needle).Some? {
        var k :| 0 <= k < |entries[1..]| && entries[1..][k] == FirstWith(entries, needle).value
                 && Contains(Print(entries[1..][k]), needle)
                 && forall j :: 0 <= j < k ==> !Contains(Print(entries[1..][j]), needle);
        assert entries[k + 1] == entries[1..][k];
        assert forall j :: 1 <= j < k + 1 ==> entries[j] == entries[1..][j - 1];
      }
    }
  }

  /** Whitespace trimmed off the end takes no occurrence of `needle` with it. */
  lemma TrimmedKeeps(s: string, n: nat, needle: string)
    requires n <= |s| && forall i :: n <= i < |s| ==> IsWhitespace(s[i])
    requires needle != [] && !IsWhitespace(needle[|needle| - 1])
    ensures Contains(s[..n], needle) <==> Contains(s, needle)
  {
    var t := s[..n];
    if Contains(t, needle) {
      var i :| 0 <= i <= |t| && needle <= t[i..];
      assert s[i..] == t[i..] + s[n..];
    }
    if Contains(s, needle) {
      var i :| 0 <= i <= |s| && needle <= s[i..];
      assert s[i + |needle| - 1] == s[i..][|needle| - 1] == needle[|needle| - 1];
      assert needle <= t[i..];
    }
  }

  /** The first line of a right-trimmed printed entry is its header, up to trailing
      whitespace when nothing else is left. */
  lemma FirstLineIsTheHeader(e: Entry)
    requires Printable(e)
    ensures var t := TrimEnd(Print(e));
            Lines(t) != [] && Lines(t)[0] <= e.header
            && forall i :: |Lines(t)[0]| <= i < |e.header| ==> IsWhitespace(e.header[i])
  {
    var p, t, h := Print(e), TrimEnd(Print(e)), e.header;
    assert IsDigit(p[0]) && p[..|h|] == h;
    assert t == p[..|t|];
    if |t| > |h| {
      var rest := t[|h| + 1..];
      assert t[|h|] == p[|h|] == '\n' && t[..|h|] == h;
      assert t == h + "\n" + rest;
      LinesCons(h, rest);
    } else {
      assert t == h[..|t|] && |t| > 0;
      LineEndOf(t, []);
      assert Lines(t) == [t];
      assert forall i :: |t| <= i < |h| ==> h[i] == p[i];
    }
  }

  /** The confirmed-commit test reads the entry's own header, never a comment. */
  lemma ConfirmedIsReadFromTheHeader(e: Entry)
    requires Printable(e)
    ensures EntryIsConfirmedCommit(TrimEnd(Print(e))) <==> Contains(e.header, "commit confirmed")
  {
    FirstLineIsTheHeader(e);
    var first, mark := Lines(TrimEnd(Print(e)))[0], "commit confirmed";
    assert first == e.header[..|first|];
    assert mark[|mark| - 1] == 'd';
    TrimmedKeeps(e.header, |first|, mark);
  }
}
