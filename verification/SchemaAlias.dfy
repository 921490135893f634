/** Advertising serde aliases in a closed JSON schema without changing what the
    schema accepts, up to the spelling of the aliased keys. */
module SchemaAlias {
  import opened Prelude

  // ----- the fragment of JSON Schema involved -----

  /** A property's subschema: the constraint it states, and its description, which
      constrains nothing. */
  datatype Subschema<C> = Subschema(constraint: C, description: Option<string>, isObject: bool)

  /** The applicators the rewrite emits under `allOf`. */
  datatype Clause =
    | Required(names: seq<string>)
    | Not(clause: Clause)
    | OneOf(clauses: seq<Clause>)

  datatype Schema<C> = Schema(
    properties: Option<map<string, Subschema<C>>>,
    required: Option<seq<string>>,
    closed: bool,
    allOf: Option<seq<Clause>>)

  type Object<V> = map<string, V>

  /** Section 6.5.3 of JSON Schema Validation 2020-12 (`required`) and sections
      10.2.1.3 and 10.2.1.4 of JSON Schema Core 2020-12 (`oneOf`, `not`). */
  predicate Holds<V>(c: Clause, o: Object<V>) {
    match c
    case Required(names) => forall n :: n in names ==> n in o
    case Not(inner) => !Holds(inner, o)
    case OneOf(clauses) => Matching(clauses, o) == 1
  }

  /** How many of the clauses hold. */
  function Matching<V>(clauses: seq<Clause>, o: Object<V>): nat {
    if clauses == [] then 0
    else (if Holds(clauses[0], o) then 1 else 0) + Matching(clauses[1..], o)
  }

  predicate HoldAll<V>(clauses: seq<Clause>, o: Object<V>) {
    forall c :: c in clauses ==> Holds(c, o)
  }

  /** What is accepted obeys the constraint of each property it has, and has none that a
      closed schema does not list. */
  lemma AcceptedObeys<C, V>(s: Schema<C>, ok: (C, V) -> bool, o: Object<V>, k: string)
    requires Accepts(s, ok, o) && k in o
    ensures s.properties.Some? && k in s.properties.value ==> ok(s.properties.value[k].constraint, o[k])
    ensures s.properties.None? || k !in s.properties.value ==> !s.closed
  {}

  function RequiredOf<C>(s: Schema<C>): seq<string> {
    if s.required.Some? then s.required.value else []
  }

  function AllOf<C>(s: Schema<C>): seq<Clause> {
    if s.allOf.Some? then s.allOf.value else []
  }

  /** Whether `s` accepts `o`, for any meaning `ok` of the property constraints. */
  predicate Accepts<C, V>(s: Schema<C>, ok: (C, V) -> bool, o: Object<V>) {
    && (forall k :: k in o ==>
                      if s.properties.Some? && k in s.properties.value then ok(s.properties.value[k].constraint, o[k]) else !s.closed)
    && (forall n :: n in RequiredOf(s) ==> n in o)
    && HoldAll(AllOf(s), o)
  }

  // ----- alias groups -----

  datatype Group = Group(canonical: string, aliases: seq<string>)

  function Names(g: Group): seq<string> { [g.canonical] + g.aliases }

  /** All names of a group are different. */
  predicate Distinct(names: seq<string>) {
    forall i, j :: 0 <= i < j < |names| ==> names[i] != names[j]
  }

  predicate DisjointGroups(groups: seq<Group>) {
    && (forall i :: 0 <= i < |groups| ==> Distinct(Names(groups[i])))
    && (forall i, j :: 0 <= i < j < |groups| ==> forall n :: n in Names(groups[i]) ==> n !in Names(groups[j]))
  }

  /** The schema does not mention the alias yet. */
  predicate Unmentioned<C>(s: Schema<C>, name: string) {
    (s.properties.Some? ==> name !in s.properties.value) && name !in RequiredOf(s)
  }

  predicate FreshAliases<C>(s: Schema<C>, groups: seq<Group>) {
    forall i, a :: 0 <= i < |groups| && a in groups[i].aliases ==> Unmentioned(s, a)
  }

  predicate KnownCanonicals<C>(s: Schema<C>, groups: seq<Group>) {
    s.properties.Some? && forall i :: 0 <= i < |groups| ==> groups[i].canonical in s.properties.value
  }

  /** At most one spelling of the group is supplied. */
  predicate OneSpelling<V>(names: seq<string>, o: Object<V>) {
    forall i, j :: 0 <= i < j < |names| ==> !(names[i] in o && names[j] in o)
  }

  /** The first of these names the object supplies. */
  function Supplied<V>(names: seq<string>, o: Object<V>): (r: Option<string>)
    ensures r.Some? ==> r.value in names && r.value in o
    ensures r.None? ==> forall n :: n in names ==> n !in o
  {
    if names == [] then None
    else if names[0] in o then Some(names[0])
    else Supplied(names[1..], o)
  }

  /** The object with whatever spelling it used for this group put under the
      canonical name, as the deserializer reads it. */
  function RenameGroup<V>(g: Group, o: Object<V>): Object<V> {
    var used := Supplied(Names(g), o);
    if used.None? then o
    else (o - set n | n in Names(g))[g.canonical := o[used.value]]
  }

  function Rename<V>(groups: seq<Group>, o: Object<V>): Object<V> {
    if groups == [] then o
    else Rename(groups[..|groups| - 1], RenameGroup(groups[|groups| - 1], o))
  }

  // ----- the rewrite -----

  function Annotated<C>(sub: Subschema<C>, canonical: string): Subschema<C> {
    var note := "Alias for `" + canonical + "`; accepted for backward compatibility.";
    if !sub.isObject then sub
    else sub.(description := Some(if sub.description.Some? then sub.description.value + "\n\n" + note else note))
  }

  /** An alias says what it is an alias for, behind whatever the canonical property says of
      itself, and constrains what that constrains. */
  lemma AliasSaysItsCanonical<C>(sub: Subschema<C>, canonical: string)
    ensures Annotated(sub, canonical).constraint == sub.constraint && Annotated(sub, canonical).isObject == sub.isObject
    ensures !sub.isObject ==> Annotated(sub, canonical).description == sub.description
    ensures sub.isObject ==>
              var note := "Alias for `" + canonical + "`; accepted for backward compatibility.";
              var said := Annotated(sub, canonical).description;
              && said.Some? && |note| <= |said.value| && said.value[|said.value| - |note|..] == note
              && said.value[..|said.value| - |note|] == if sub.description.Some? then sub.description.value + "\n\n" else []
  {}

  /** `n1` alone, or `n2` alone, and so on. */
  function Alternatives(names: seq<string>): (r: seq<Clause>)
    ensures |r| == |names|
  {
    if names == [] then [] else [Required([names[0]])] + Alternatives(names[1..])
  }

  /** Not both the first and one of the others. */
  function Excluding(first: string, others: seq<string>): (r: seq<Clause>)
    ensures |r| == |others| && forall k :: 0 <= k < |r| ==> r[k] == Not(Required([first, others[k]]))
  {
    seq(|others|, k requires 0 <= k < |others| => Not(Required([first, others[k]])))
  }

  function PairExclusions(names: seq<string>): seq<Clause> {
    if names == [] then [] else Excluding(names[0], names[1..]) + PairExclusions(names[1..])
  }

  function Choices(g: Group, wasRequired: bool): seq<Clause> {
    if wasRequired then [OneOf(Alternatives(Names(g)))] else PairExclusions(Names(g))
  }

  function Without(names: seq<string>, name: string): (r: seq<string>)
    ensures forall n :: n in r <==> n in names && n != name
  {
    if names == [] then []
    else (if names[0] == name then [] else [names[0]]) + Without(names[1..], name)
  }

  function AliasProperties<C>(sub: Subschema<C>, g: Group): map<string, Subschema<C>> {
    map a | a in g.aliases :: Annotated(sub, g.canonical)
  }

  /** One group's share of the rewrite. `original` is the property map before any
      group; a group it does not know is skipped. */
  function AddGroup<C>(original: map<string, Subschema<C>>, s: Schema<C>, g: Group): (r: Schema<C>)
    requires s.properties.Some?
    ensures r.properties.Some?
  {
    if g.canonical !in original then s
    else
      Schema(Some(s.properties.value + AliasProperties(original[g.canonical], g)),
             if s.required.Some? then Some(Without(s.required.value, g.canonical)) else None,
             s.closed,
             Some(AllOf(s) + Choices(g, g.canonical in RequiredOf(s))))
  }

  function AddGroups<C>(original: map<string, Subschema<C>>, s: Schema<C>, groups: seq<Group>): (r: Schema<C>)
    requires s.properties.Some?
    ensures r.properties.Some?
  {
    if groups == [] then s
    else AddGroup(original, AddGroups(original, s, groups[..|groups| - 1]), groups[|groups| - 1])
  }

  /** The whole rewrite: an emptied `required` is dropped, and collected choices
      replace any `allOf` the schema had. */
  function Described<C>(s: Schema<C>, groups: seq<Group>): Schema<C> {
    if s.properties.None? then s
    else
      var added := AddGroups(s.properties.value, s.(allOf := None), groups);
      added.(required := if added.required == Some([]) then None else added.required,
      allOf := if AllOf(added) == [] then s.allOf else added.allOf)
  }

  // ----- what the emitted clauses mean -----

  lemma {:induction false} AlternativesMean<V>(names: seq<string>, o: Object<V>)
    ensures Matching(Alternatives(names), o) == 0 <==> forall n :: n in names ==> n !in o
    ensures Matching(Alternatives(names), o) == 1 <==> OneSpelling(names, o) && exists n :: n in names && n in o
  {
    if names != [] {
      var rest := names[1..];
      AlternativesMean(rest, o);
      assert Alternatives(names)[1..] == Alternatives(rest);
      assert forall n :: n in names <==> n == names[0] || n in rest;
      SpellingsOfRest(names, o);
    }
  }

  lemma SpellingsOfRest<V>(names: seq<string>, o: Object<V>)
    requires names != []
    ensures OneSpelling(names, o) <==>
            OneSpelling(names[1..], o) && (names[0] in o ==> forall n :: n in names[1..] ==> n !in o)
  {
    var rest := names[1..];
    if OneSpelling(names, o) {
      forall i, j | 0 <= i < j < |rest| ensures !(rest[i] in o && rest[j] in o) {
        assert rest[i] == names[i + 1] && rest[j] == names[j + 1];
      }
      forall n | n in rest && names[0] in o ensures n !in o {
        var j :| 0 <= j < |rest| && rest[j] == n;
        assert names[j + 1] == n;
      }
    } else {
      var i, j :| 0 <= i < j < |names| && names[i] in o && names[j] in o;
      assert names[j] == rest[j - 1];
      if i > 0 { assert names[i] == rest[i - 1]; }
    }
  }

  lemma HoldAllAppend<V>(a: seq<Clause>, b: seq<Clause>, o: Object<V>)
    ensures HoldAll(a + b, o) <==> HoldAll(a, o) && HoldAll(b, o)
  {
    assert forall c :: c in a + b <==> c in a || c in b;
  }

  lemma ExcludingMeans<V>(first: string, others: seq<string>, o: Object<V>)
    ensures HoldAll(Excluding(first, others), o) <==> (first in o ==> forall n :: n in others ==> n !in o)
  {
    var clauses := Excluding(first, others);
    forall k | 0 <= k < |others| ensures Holds(clauses[k], o) <==> !(first in o && others[k] in o) {
      var pair := [first, others[k]];
      assert pair[0] == first && pair[1] == others[k];
      assert Holds(Required(pair), o) <==> first in o && others[k] in o;
    }
    if first in o && exists n :: n in others && n in o {
      var k :| 0 <= k < |others| && others[k] in o;
      assert clauses[k] in clauses;
    }
  }

  lemma {:induction false} PairExclusionsMean<V>(names: seq<string>, o: Object<V>)
    ensures HoldAll(PairExclusions(names), o) <==> OneSpelling(names, o)
  {
    if names != [] {
      PairExclusionsMean(names[1..], o);
      SpellingsOfRest(names, o);
      ExcludingMeans(names[0], names[1..], o);
      HoldAllAppend(Excluding(names[0], names[1..]), PairExclusions(names[1..]), o);
    }
  }

  lemma ChoicesMean<V>(g: Group, wasRequired: bool, o: Object<V>)
    ensures HoldAll(Choices(g, wasRequired), o) <==>
            OneSpelling(Names(g), o) && (wasRequired ==> exists n :: n in Names(g) && n in o)
  {
    AlternativesMean(Names(g), o);
    PairExclusionsMean(Names(g), o);
    if wasRequired {
      var c := OneOf(Alternatives(Names(g)));
      assert Choices(g, wasRequired) == [c] && c in [c];
    }
  }

  /** A clause that names none of `names`. */
  predicate Avoids(c: Clause, names: seq<string>) {
    match c
    case Required(ns) => forall n :: n in ns ==> n !in names
    case Not(inner) => Avoids(inner, names)
    case OneOf(clauses) => forall c' :: c' in clauses ==> Avoids(c', names)
  }

  ghost predicate AgreeOutside<V>(o: Object<V>, o': Object<V>, names: seq<string>) {
    forall k :: k !in names ==> (k in o <==> k in o')
  }

  lemma {:induction false} AvoidedNamesDoNotMatter<V>(c: Clause, names: seq<string>, o: Object<V>, o': Object<V>)
    requires Avoids(c, names) && AgreeOutside(o, o', names)
    ensures Holds(c, o) <==> Holds(c, o')
  {
    match c {
      case Required(ns) =>
      case Not(inner) => AvoidedNamesDoNotMatter(inner, names, o, o');
      case OneOf(clauses) => MatchingAvoids(clauses, names, o, o');
    }
  }

  lemma {:induction false} MatchingAvoids<V>(clauses: seq<Clause>, names: seq<string>, o: Object<V>, o': Object<V>)
    requires (forall c :: c in clauses ==> Avoids(c, names)) && AgreeOutside(o, o', names)
    ensures Matching(clauses, o) == Matching(clauses, o')
  {
    if clauses != [] {
      AvoidedNamesDoNotMatter(clauses[0], names, o, o');
      MatchingAvoids(clauses[1..], names, o, o');
    }
  }

  /** The choices of one group avoid the names of another. */
  lemma {:induction false} AlternativesAvoid(names: seq<string>, others: seq<string>)
    requires forall n :: n in names ==> n !in others
    ensures forall c :: c in Alternatives(names) ==> Avoids(c, others)
  {
    if names != [] {
      AlternativesAvoid(names[1..], others);
    }
  }

  lemma {:induction false} ExclusionsAvoid(names: seq<string>, others: seq<string>)
    requires forall n :: n in names ==> n !in others
    ensures forall c :: c in PairExclusions(names) ==> Avoids(c, others)
  {
    if names != [] {
      ExclusionsAvoid(names[1..], others);
      assert forall k :: 0 <= k < |names[1..]| ==> names[1..][k] in names;
    }
  }

  lemma ChoicesAvoid(g: Group, wasRequired: bool, others: seq<string>)
    requires forall n :: n in Names(g) ==> n !in others
    ensures forall c :: c in Choices(g, wasRequired) ==> Avoids(c, others)
  {
    AlternativesAvoid(Names(g), others);
    ExclusionsAvoid(Names(g), others);
  }

  // ----- one group keeps the meaning -----

  lemma SpellingIsUnique<V>(names: seq<string>, o: Object<V>, a: string, b: string)
    requires OneSpelling(names, o) && a in names && b in names && a in o && b in o
    ensures a == b
  {
    var i :| 0 <= i < |names| && names[i] == a;
    var j :| 0 <= j < |names| && names[j] == b;
  }

  lemma RenamedGroup<V>(g: Group, o: Object<V>)
    requires OneSpelling(Names(g), o) && Distinct(Names(g))
    ensures var o' := RenameGroup(g, o);
            && AgreeOutside(o, o', Names(g))
            && (forall k :: k in o && k !in Names(g) ==> o'[k] == o[k])
            && (forall a :: a in g.aliases ==> a !in o')
            && (g.canonical in o' <==> exists n :: n in Names(g) && n in o)
            && (forall n :: n in Names(g) && n in o ==> o'[g.canonical] == o[n])
  {
    var names, o' := Names(g), RenameGroup(g, o);
    var used := Supplied(names, o);
    assert g.canonical == names[0];
    forall a | a in g.aliases ensures a in names && a != g.canonical {
      var i :| 0 <= i < |g.aliases| && g.aliases[i] == a;
      assert names[i + 1] == a;
    }
    forall n | n in names && n in o ensures o'[g.canonical] == o[n] {
      SpellingIsUnique(names, o, n, used.value);
    }
  }

  /** What a group may be added to: the schema still has its canonical property as it
      originally was, and nothing in it mentions the group's aliases, nor any clause
      the group at all. */
  ghost predicate Ready<C>(original: map<string, Subschema<C>>, s: Schema<C>, g: Group) {
    && s.properties.Some? && g.canonical in original && g.canonical in s.properties.value
    && s.properties.value[g.canonical].constraint == original[g.canonical].constraint
    && (forall a :: a in g.aliases ==> Unmentioned(s, a))
    && (forall c :: c in AllOf(s) ==> Avoids(c, Names(g)))
    && Distinct(Names(g))
  }

  lemma PropertiesAfterGroup<C, V>(original: map<string, Subschema<C>>, s: Schema<C>, g: Group, ok: (C, V) -> bool,
                                   o: Object<V>)
    requires Ready(original, s, g) && OneSpelling(Names(g), o)
    ensures var s', o' := AddGroup(original, s, g), RenameGroup(g, o);
            (forall k :: k in o ==> if k in s'.properties.value then ok(s'.properties.value[k].constraint, o[k]) else !s'.closed)
            <==>
            (forall k :: k in o' ==> if k in s.properties.value then ok(s.properties.value[k].constraint, o'[k]) else !s.closed)
  {
    RenamedGroup(g, o);
    var s', o', names := AddGroup(original, s, g), RenameGroup(g, o), Names(g);
    var p, p' := s.properties.value, s'.properties.value;
    assert forall k :: k in names <==> k == g.canonical || k in g.aliases;
    assert forall k :: k in names ==> k in p' && p'[k].constraint == p[g.canonical].constraint;
    assert forall k :: k !in names ==> (k in p' <==> k in p) && (k in p ==> p'[k] == p[k]);
    if forall k :: k in o ==> if k in p' then ok(p'[k].constraint, o[k]) else !s'.closed {
      forall k | k in o' ensures if k in p then ok(p[k].constraint, o'[k]) else !s.closed {
        if k in names {
          var n :| n in names && n in o;
          assert o'[k] == o[n];
        } else {
          assert k in o;
        }
      }
    }
    if forall k :: k in o' ==> if k in p then ok(p[k].constraint, o'[k]) else !s.closed {
      forall k | k in o ensures if k in p' then ok(p'[k].constraint, o[k]) else !s'.closed {
        if k in names {
          assert o'[g.canonical] == o[k];
        } else {
          assert k in o';
        }
      }
    }
  }

  lemma RequiredAfterGroup<C, V>(original: map<string, Subschema<C>>, s: Schema<C>, g: Group, o: Object<V>)
    requires Ready(original, s, g) && OneSpelling(Names(g), o)
    ensures var s', o' := AddGroup(original, s, g), RenameGroup(g, o);
            (forall n :: n in RequiredOf(s) ==> n in o')
            <==> (forall n :: n in RequiredOf(s') ==> n in o)
                 && (g.canonical in RequiredOf(s) ==> exists n :: n in Names(g) && n in o)
  {
    RenamedGroup(g, o);
    assert forall n :: n in RequiredOf(s) && n != g.canonical ==> n !in Names(g);
  }

  lemma GroupKeepsMeaning<C, V>(original: map<string, Subschema<C>>, s: Schema<C>, g: Group, ok: (C, V) -> bool,
                                o: Object<V>)
    requires Ready(original, s, g)
    ensures Accepts(AddGroup(original, s, g), ok, o) <==>
            OneSpelling(Names(g), o) && Accepts(s, ok, RenameGroup(g, o))
  {
    var s', o' := AddGroup(original, s, g), RenameGroup(g, o);
    var wasRequired := g.canonical in RequiredOf(s);
    ChoicesMean(g, wasRequired, o);
    HoldAllAppend(AllOf(s), Choices(g, wasRequired), o);
    if OneSpelling(Names(g), o) {
      RenamedGroup(g, o);
      PropertiesAfterGroup(original, s, g, ok, o);
      RequiredAfterGroup(original, s, g, o);
      forall c | c in AllOf(s) ensures Holds(c, o) <==> Holds(c, o') {
        AvoidedNamesDoNotMatter(c, Names(g), o, o');
      }
    }
  }

  // ----- every group -----

  ghost predicate Apart(groups: seq<Group>, g: Group) {
    forall h, n :: h in groups && n in Names(h) ==> n !in Names(g)
  }

  /** After any number of groups, the next one finds what it needs. */
  lemma {:induction false} StaysReady<C>(s: Schema<C>, groups: seq<Group>, g: Group)
    requires s.properties.Some? && AllOf(s) == []
    requires Ready(s.properties.value, s, g) && Apart(groups, g)
    ensures Ready(s.properties.value, AddGroups(s.properties.value, s, groups), g)
  {
    if groups != [] {
      var original, last := s.properties.value, groups[|groups| - 1];
      assert forall h :: h in groups[..|groups| - 1] ==> h in groups;
      StaysReady(s, groups[..|groups| - 1], g);
      var before := AddGroups(original, s, groups[..|groups| - 1]);
      assert last in groups && g.canonical == Names(g)[0];
      assert forall n :: n in Names(last) ==> n !in Names(g);
      if last.canonical in original {
        ChoicesAvoid(last, last.canonical in RequiredOf(before), Names(g));
        assert forall a :: a in last.aliases ==> a in Names(last);
        assert forall a :: a in g.aliases ==> a in Names(g);
      }
    }
  }

  lemma RenameKeepsOthers<V>(g: Group, h: Group, o: Object<V>)
    requires OneSpelling(Names(g), o) && Distinct(Names(g))
    requires forall n :: n in Names(h) ==> n !in Names(g)
    ensures OneSpelling(Names(h), RenameGroup(g, o)) <==> OneSpelling(Names(h), o)
  {
    RenamedGroup(g, o);
    var o' := RenameGroup(g, o);
    assert forall i :: 0 <= i < |Names(h)| ==> (Names(h)[i] in o <==> Names(h)[i] in o');
  }

  predicate OneSpellingEach<V>(groups: seq<Group>, o: Object<V>) {
    forall g :: g in groups ==> OneSpelling(Names(g), o)
  }

  ghost predicate Describable<C>(s: Schema<C>, groups: seq<Group>) {
    KnownCanonicals(s, groups) && DisjointGroups(groups) && FreshAliases(s, groups)
  }

  lemma LastGroupIsReady<C>(s: Schema<C>, groups: seq<Group>)
    requires Describable(s, groups) && AllOf(s) == [] && groups != []
    ensures var n := |groups| - 1;
            && Describable(s, groups[..n]) && Apart(groups[..n], groups[n])
            && Ready(s.properties.value, AddGroups(s.properties.value, s, groups[..n]), groups[n])
  {
    var n := |groups| - 1;
    var g, rest := groups[n], groups[..n];
    forall h, m | h in rest && m in Names(h) ensures m !in Names(g) {
      var i :| 0 <= i < n && groups[i] == h;
    }
    StaysReady(s, rest, g);
  }

  lemma OneSpellingEachAfterRename<V>(groups: seq<Group>, g: Group, o: Object<V>)
    requires Apart(groups, g) && Distinct(Names(g))
    ensures OneSpellingEach(groups + [g], o) <==>
            OneSpelling(Names(g), o) && OneSpellingEach(groups, RenameGroup(g, o))
  {
    assert forall h :: h in groups + [g] <==> h in groups || h == g;
    if OneSpelling(Names(g), o) {
      forall h | h in groups ensures OneSpelling(Names(h), RenameGroup(g, o)) <==> OneSpelling(Names(h), o) {
        RenameKeepsOthers(g, h, o);
      }
    }
  }

  lemma {:induction false} GroupsKeepMeaning<C, V>(s: Schema<C>, groups: seq<Group>, ok: (C, V) -> bool, o: Object<V>)
    requires Describable(s, groups) && AllOf(s) == []
    ensures Accepts(AddGroups(s.properties.value, s, groups), ok, o) <==>
            OneSpellingEach(groups, o) && Accepts(s, ok, Rename(groups, o))
  {
    if groups != [] {
      var n := |groups| - 1;
      EarlierAreDescribable(s, groups);
      GroupsKeepMeaning(s, groups[..n], ok, RenameGroup(groups[n], o));
      LastGroupKeepsMeaning(s, groups, ok, o);
    }
  }

  lemma EarlierAreDescribable<C>(s: Schema<C>, groups: seq<Group>)
    requires Describable(s, groups) && AllOf(s) == [] && groups != []
    ensures Describable(s, groups[..|groups| - 1])
  {
    LastGroupIsReady(s, groups);
  }

  lemma LastGroupKeepsMeaning<C, V>(s: Schema<C>, groups: seq<Group>, ok: (C, V) -> bool, o: Object<V>)
    requires Describable(s, groups) && AllOf(s) == [] && groups != []
    requires var rest, o' := groups[..|groups| - 1], RenameGroup(groups[|groups| - 1], o);
             Accepts(AddGroups(s.properties.value, s, rest), ok, o') <==>
             OneSpellingEach(rest, o') && Accepts(s, ok, Rename(rest, o'))
    ensures Accepts(AddGroups(s.properties.value, s, groups), ok, o) <==>
            OneSpellingEach(groups, o) && Accepts(s, ok, Rename(groups, o))
  {
    var n := |groups| - 1;
    LastGroupIsReady(s, groups);
    OneMoreGroup(s.properties.value, s, groups[..n], groups[n], ok, o);
    LastGroupAdded(s.properties.value, s, groups);
    LastGroupRenamed(groups, o);
  }

  lemma LastGroupRenamed<V>(groups: seq<Group>, o: Object<V>)
    requires groups != []
    ensures var n := |groups| - 1; Rename(groups, o) == Rename(groups[..n], RenameGroup(groups[n], o))
  {}

  /** If the earlier groups keep the meaning, so do they with one more. */
  lemma OneMoreGroup<C, V>(original: map<string, Subschema<C>>, s: Schema<C>, rest: seq<Group>, g: Group,
                           ok: (C, V) -> bool, o: Object<V>)
    requires s.properties.Some? && Ready(original, AddGroups(original, s, rest), g) && Apart(rest, g)
    requires var o' := RenameGroup(g, o);
             Accepts(AddGroups(original, s, rest), ok, o') <==> OneSpellingEach(rest, o') && Accepts(s, ok, Rename(rest, o'))
    ensures Accepts(AddGroup(original, AddGroups(original, s, rest), g), ok, o) <==>
            OneSpellingEach(rest + [g], o) && Accepts(s, ok, Rename(rest, RenameGroup(g, o)))
  {
    GroupKeepsMeaning(original, AddGroups(original, s, rest), g, ok, o);
    OneSpellingEachAfterRename(rest, g, o);
  }

  lemma SameDemands<C, V>(a: Schema<C>, b: Schema<C>, ok: (C, V) -> bool, o: Object<V>)
    requires a.properties == b.properties && a.closed == b.closed && RequiredOf(a) == RequiredOf(b) && AllOf(a) == AllOf(b)
    ensures Accepts(a, ok, o) <==> Accepts(b, ok, o)
  {}

  /** The choices the rewrite collects; if there are any they are published as `allOf`. */
  function Collected<C>(s: Schema<C>, groups: seq<Group>): seq<Clause>
    requires s.properties.Some?
  {
    AllOf(AddGroups(s.properties.value, s.(allOf := None), groups))
  }

  lemma DescribableWithoutAllOf<C>(s: Schema<C>, groups: seq<Group>)
    requires Describable(s, groups)
    ensures Describable(s.(allOf := None), groups)
  {
    var plain := s.(allOf := None);
    forall i, a | 0 <= i < |groups| && a in groups[i].aliases ensures Unmentioned(plain, a) {
      assert Unmentioned(s, a);
    }
  }

  /** A group that adds no choice is optional and has no alias, and then adds nothing. */
  lemma NothingToChoose<C>(original: map<string, Subschema<C>>, s: Schema<C>, g: Group)
    requires s.properties.Some? && g.canonical in original && Choices(g, g.canonical in RequiredOf(s)) == []
    ensures g.aliases == []
    ensures SameApart(AddGroup(original, s, g), s) && AllOf(AddGroup(original, s, g)) == AllOf(s)
  {
    assert |Excluding(g.canonical, Names(g)[1..])| == |g.aliases|;
    if s.required.Some? { WithoutAbsent(s.required.value, g.canonical); }
    assert s.properties.value + AliasProperties(original[g.canonical], g) == s.properties.value;
  }

  /** The same demands but for what `allOf` asks. */
  predicate SameApart<C(==)>(a: Schema<C>, b: Schema<C>) {
    a.properties == b.properties && RequiredOf(a) == RequiredOf(b) && a.closed == b.closed
  }

  lemma NoneInEither(a: seq<Clause>, b: seq<Clause>)
    ensures a + b == [] ==> a == [] && b == []
  {
    assert |a + b| == |a| + |b|;
  }

  lemma LastGroupAdded<C>(original: map<string, Subschema<C>>, s: Schema<C>, groups: seq<Group>)
    requires s.properties.Some? && groups != []
    ensures var n := |groups| - 1;
            && groups == groups[..n] + [groups[n]]
            && AddGroups(original, s, groups) == AddGroup(original, AddGroups(original, s, groups[..n]), groups[n])
  {}

  lemma {:induction false} NothingCollected<C>(s: Schema<C>, groups: seq<Group>)
    requires KnownCanonicals(s, groups) && AllOf(s) == [] && AllOf(AddGroups(s.properties.value, s, groups)) == []
    ensures SameApart(AddGroups(s.properties.value, s, groups), s)
    ensures forall g :: g in groups ==> g.aliases == []
  {
    if groups != [] {
      var n := |groups| - 1;
      var g, before := groups[n], AddGroups(s.properties.value, s, groups[..n]);
      LastGroupAdded(s.properties.value, s, groups);
      NoneInEither(AllOf(before), Choices(g, g.canonical in RequiredOf(before)));
      NothingToChoose(s.properties.value, before, g);
      NothingCollected(s, groups[..n]);
    }
  }

  lemma {:induction false} NothingToRename<V>(groups: seq<Group>, o: Object<V>)
    requires forall g :: g in groups ==> g.aliases == []
    ensures Rename(groups, o) == o && OneSpellingEach(groups, o)
  {
    if groups != [] {
      var n := |groups| - 1;
      var g := groups[n];
      assert g in groups && Names(g) == [g.canonical];
      assert Supplied(Names(g), o) == if g.canonical in o then Some(g.canonical) else None;
      assert RenameGroup(g, o) == o;
      NothingToRename(groups[..n], o);
      assert groups == groups[..n] + [g];
    }
  }

  /** The published schema accepts an object exactly when it uses at most one spelling
      per group and, read under canonical names, it was accepted before: whenever the
      schema had no `allOf`, or no choice is collected that would replace it. */
  lemma RewriteKeepsMeaning<C, V>(s: Schema<C>, groups: seq<Group>, ok: (C, V) -> bool, o: Object<V>)
    requires Describable(s, groups) && (s.allOf.None? || Collected(s, groups) == [])
    ensures Accepts(Described(s, groups), ok, o) <==>
            OneSpellingEach(groups, o) && Accepts(s, ok, Rename(groups, o))
  {
    var plain := s.(allOf := None);
    DescribableWithoutAllOf(s, groups);
    if s.allOf.None? {
      assert plain == s;
      GroupsKeepMeaning(s, groups, ok, o);
      SameDemands(AddGroups(s.properties.value, s, groups), Described(s, groups), ok, o);
    } else {
      NothingCollected(plain, groups);
      NothingToRename(groups, o);
      SameDemands(s, Described(s, groups), ok, o);
    }
  }

  /** Otherwise collected choices take the place of the prior `allOf`, which is no longer
      enforced: for an object the meaning is kept exactly when, if it is accepted now, it
      also met what the old `allOf` asked. */
  lemma PriorAllOfIsReplaced<C, V>(s: Schema<C>, groups: seq<Group>, ok: (C, V) -> bool, o: Object<V>)
    requires Describable(s, groups) && Collected(s, groups) != []
    ensures Accepts(Described(s, groups), ok, o) <==>
            OneSpellingEach(groups, o) && Accepts(s.(allOf := None), ok, Rename(groups, o))
    ensures (Accepts(Described(s, groups), ok, o) <==> OneSpellingEach(groups, o) && Accepts(s, ok, Rename(groups, o)))
       <==> (Accepts(Described(s, groups), ok, o) ==> HoldAll(AllOf(s), Rename(groups, o)))
  {
    var plain := s.(allOf := None);
    DescribableWithoutAllOf(s, groups);
    GroupsKeepMeaning(plain, groups, ok, o);
    SameDemands(AddGroups(s.properties.value, plain, groups), Described(s, groups), ok, o);
    AllOfIsApart(s, ok, Rename(groups, o));
  }

  lemma AllOfIsApart<C, V>(s: Schema<C>, ok: (C, V) -> bool, o: Object<V>)
    ensures Accepts(s, ok, o) <==> Accepts(s.(allOf := None), ok, o) && HoldAll(AllOf(s), o)
  {}

  /** One property, asked for by an `allOf`. */
  function Demanding<C>(c: C, name: string): Schema<C> {
    Schema(Some(map[name := Subschema(c, None, true)]), None, true, Some([Required([name])]))
  }

  /** Such an object: an `allOf` that asks for a property is lost when the property gets an
      alias, and the empty object, which was refused, is accepted. */
  lemma PriorAllOfCanBeLost<C, V>(c: C, name: string, alias: string, ok: (C, V) -> bool)
    requires name != alias
    ensures var s, groups, empty: Object<V> := Demanding(c, name), [Group(name, [alias])], map[];
            && Describable(s, groups) && Collected(s, groups) != []
            && Accepts(Described(s, groups), ok, empty) && !Accepts(s, ok, Rename(groups, empty))
  {
    var s, groups, empty: Object<V> := Demanding(c, name), [Group(name, [alias])], map[];
    DemandingIsDescribable(c, name, alias);
    ChoiceIsCollected(s, Group(name, [alias]));
    assert Rename(groups, empty) == empty by { assert groups[..0] == []; }
    assert OneSpellingEach(groups, empty) && Accepts(s.(allOf := None), ok, empty);
    PriorAllOfIsReplaced(s, groups, ok, empty);
    assert !HoldAll(AllOf(s), empty) by {
      assert AllOf(s)[0] == Required([name]) && name in [name];
      assert Required([name]) in AllOf(s) && !Holds(Required([name]), empty);
    }
  }

  lemma DemandingIsDescribable<C>(c: C, name: string, alias: string)
    requires name != alias
    ensures Describable(Demanding(c, name), [Group(name, [alias])])
  {
    var g := Group(name, [alias]);
    assert Names(g) == [name, alias];
    assert forall a :: a in g.aliases ==> a == alias;
  }

  /** An optional group with an alias adds a choice. */
  lemma ChoiceIsCollected<C>(s: Schema<C>, g: Group)
    requires s.properties.Some? && g.canonical in s.properties.value && g.canonical !in RequiredOf(s) && g.aliases != []
    ensures Collected(s, [g]) != []
  {
    var plain := s.(allOf := None);
    assert [g][..0] == [];
    assert AddGroups(s.properties.value, plain, [g]) == AddGroup(s.properties.value, plain, g);
    assert Names(g)[1..] == g.aliases;
    assert |PairExclusions(Names(g))| >= |Excluding(g.canonical, g.aliases)|;
  }

  // ----- the rewrite in place -----

  class MutableSchema<C> {
    var properties: Option<map<string, Subschema<C>>>
    var required: Option<seq<string>>
    var closed: bool
    var allOf: Option<seq<Clause>>

    function Value(): Schema<C>
      reads this
    {
      Schema(properties, required, closed, allOf)
    }

    constructor (s: Schema<C>)
      ensures Value() == s
    {
      properties, required, closed, allOf := s.properties, s.required, s.closed, s.allOf;
    }

    method DescribeAliases(groups: seq<Group>)
      modifies this
      ensures Value() == Described(old(Value()), groups)
    {
      if properties.None? { return; }
      var original := properties.value;
      var requiredChoices: seq<Clause> := [];
      ghost var plain := old(Value()).(allOf := None);
      var i := 0;
      while i < |groups|
        invariant 0 <= i <= |groups| && properties.Some?
        invariant closed == old(closed) && allOf == old(allOf)
        invariant SoFar(requiredChoices, AddGroups(original, plain, groups[..i]))
      {
        requiredChoices := DescribeGroup(original, groups[i], requiredChoices, AddGroups(original, plain, groups[..i]));
        assert groups[..i + 1][..i] == groups[..i];
        i := i + 1;
      }
      assert groups[..i] == groups;
      if required == Some([]) {
        required := None;
      }
      if requiredChoices != [] {
        allOf := Some(requiredChoices);
      }
    }

    /** The object stands at `s`, whose `allOf` is collected beside it. */
    ghost predicate SoFar(choices: seq<Clause>, s: Schema<C>)
      reads this
    {
      properties == s.properties && required == s.required && closed == s.closed && choices == AllOf(s)
    }

    method DescribeGroup(original: map<string, Subschema<C>>, g: Group, choices: seq<Clause>, ghost s: Schema<C>)
      returns (more: seq<Clause>)
      requires properties.Some? && SoFar(choices, s)
      modifies this
      ensures properties.Some? && closed == old(closed) && allOf == old(allOf)
      ensures SoFar(more, AddGroup(original, s, g))
    {
      more := choices;
      if g.canonical in original {
        var wasRequired := required.Some? && g.canonical in required.value;
        InsertAliases(original[g.canonical], g);
        if wasRequired {
          required := Some(Without(required.value, g.canonical));
          more := choices + [OneOf(Alternatives(Names(g)))];
        } else {
          if required.Some? { WithoutAbsent(required.value, g.canonical); }
          var pairs := ExcludePairs(Names(g));
          more := choices + pairs;
        }
      }
    }

    method InsertAliases(sub: Subschema<C>, g: Group)
      requires properties.Some?
      modifies this`properties
      ensures properties == Some(old(properties.value) + AliasProperties(sub, g))
    {
      var j := 0;
      while j < |g.aliases|
        invariant 0 <= j <= |g.aliases| && properties.Some?
        invariant properties.value == old(properties.value) + map a | a in g.aliases[..j] :: Annotated(sub, g.canonical)
      {
        OneMoreAlias(old(properties.value), g.aliases[..j], g.aliases[j], g.aliases[..j + 1], Annotated(sub, g.canonical));
        properties := Some(properties.value[g.aliases[j] := Annotated(sub, g.canonical)]);
        j := j + 1;
      }
      assert g.aliases[..j] == g.aliases;
    }
  }

  lemma OneMoreAlias<C>(before: map<string, Subschema<C>>, done: seq<string>, alias: string, more: seq<string>,
                        copy: Subschema<C>)
    requires more == done + [alias]
    ensures (before + map a | a in done :: copy)[alias := copy] == before + map a | a in more :: copy
  {}

  /** Each pair of names, in order, excluded. */
  method ExcludePairs(names: seq<string>) returns (choices: seq<Clause>)
    ensures choices == PairExclusions(names)
  {
    choices := [];
    var i := 0;
    while i < |names|
      invariant 0 <= i <= |names|
      invariant choices + PairExclusions(names[i..]) == PairExclusions(names)
    {
      var row := ExcludeOthers(names[i], names[i + 1..]);
      assert names[i..][1..] == names[i + 1..];
      assert (choices + row) + PairExclusions(names[i + 1..]) == choices + (row + PairExclusions(names[i + 1..]));
      choices := choices + row;
      i := i + 1;
    }
    assert names[i..] == [];
  }

  method ExcludeOthers(first: string, others: seq<string>) returns (row: seq<Clause>)
    ensures row == Excluding(first, others)
  {
    row := [];
    var j := 0;
    while j < |others|
      invariant 0 <= j <= |others| && |row| == j
      invariant forall k :: 0 <= k < j ==> row[k] == Not(Required([first, others[k]]))
    {
      row := row + [Not(Required([first, others[j]]))];
      j := j + 1;
    }
  }

  lemma {:induction false} WithoutAbsent(names: seq<string>, name: string)
    requires name !in names
    ensures Without(names, name) == names
  {
    if names != [] {
      WithoutAbsent(names[1..], name);
    }
  }
}
