/** Compiling the inventory's rules into one policy a device, and deciding commands.

    Globs, token prefixes and the specificity of a rule belong to the rule engine below;
    here they are parameters. */
module Policy {
  import opened Prelude

  datatype Mode = Allowlist | Blocklist

  datatype RuleSpec = RuleSpec(deny: bool, pattern: string)

  /** The rules and prefixes of one scope for one domain of commands. */
  datatype Scope = Scope(rules: seq<RuleSpec>, allow: seq<string>, pipes: seq<string>)

  datatype Section = Section(commands: Scope, pfe: Scope, config: seq<RuleSpec>)

  datatype Defaults = Defaults(mode: Option<Mode>, section: Section)

  /** A device's own rules are optional, and so are the defaults. */
  datatype Inventory = Inventory(defaults: Option<Defaults>, devices: map<string, Option<Section>>)

  const NO_SCOPE := Scope([], [], [])
  const NO_SECTION := Section(NO_SCOPE, NO_SCOPE, [])

  function Own(s: Option<Section>): Section { if s.Some? then s.value else NO_SECTION }

  function DefaultSection(inv: Inventory): Section { if inv.defaults.Some? then inv.defaults.value.section else NO_SECTION }

  /** The rule engine: which patterns and prefixes compile, what matches a normalised
      command, and how specific a rule is. */
  datatype Engine = Engine(
    compiles: string -> bool,
    entryCompiles: string -> bool,
    normalize: string -> string,
    globs: (string, string) -> bool,
    specificity: string -> nat,
    prefixes: (string, string) -> bool,
    pipesAllowed: (seq<string>, string) -> bool)

  /** Allowing more pipes refuses nothing that was allowed. */
  ghost predicate Monotone(e: Engine) {
    forall a: seq<string>, b: seq<string>, c :: (forall p :: p in a ==> p in b) && e.pipesAllowed(a, c) ==> e.pipesAllowed(b, c)
  }

  // ----- building -----

  predicate HasRules(s: Section) { s.commands.rules != [] || s.config != [] || s.pfe.rules != [] }

  /** Without an explicit mode, any deny rule anywhere keeps the whole file fail-open. */
  function EffectiveMode(inv: Inventory): Mode {
    if inv.defaults.Some? && inv.defaults.value.mode.Some? then inv.defaults.value.mode.value
    else if HasRules(DefaultSection(inv)) || exists n <- inv.devices :: HasRules(Own(inv.devices[n])) then Blocklist
    else Allowlist
  }

  /** The rule is written somewhere in this section. */
  predicate Written(s: Section, r: RuleSpec) { r in s.commands.rules || r in s.pfe.rules || r in s.config }

  /** The mode the file gives is the mode. A file that gives none is fail-open exactly if it
      has a rule, in the defaults or for any device. */
  lemma ModeOfTheFile(inv: Inventory)
    ensures inv.defaults.Some? && inv.defaults.value.mode.Some? ==> EffectiveMode(inv) == inv.defaults.value.mode.value
    ensures inv.defaults.None? || inv.defaults.value.mode.None? ==>
              (EffectiveMode(inv) == Blocklist <==>
               || (inv.defaults.Some? && exists r :: Written(inv.defaults.value.section, r))
               || exists n, r :: n in inv.devices && inv.devices[n].Some? && Written(inv.devices[n].value, r))
  {
    RulesAreWritten(DefaultSection(inv));
    forall n | n in inv.devices ensures HasRules(Own(inv.devices[n])) <==> exists r :: Written(Own(inv.devices[n]), r) {
      RulesAreWritten(Own(inv.devices[n]));
    }
  }

  lemma RulesAreWritten(s: Section)
    ensures HasRules(s) <==> exists r :: Written(s, r)
  {
    if HasRules(s) {
      var r := if s.commands.rules != [] then s.commands.rules[0] else if s.config != [] then s.config[0] else s.pfe.rules[0];
      assert Written(s, r);
    }
  }

  /** A section compiles exactly if every rule and every prefix and pipe written in it does. */
  lemma CompilesExactlyWhen(s: Section, e: Engine)
    ensures SectionCompiles(s, e) <==>
            && (forall r :: Written(s, r) ==> e.compiles(r.pattern))
            && (forall a :: a in s.commands.allow || a in s.commands.pipes || a in s.pfe.allow || a in s.pfe.pipes ==> e.entryCompiles(a))
  {
    if forall r :: Written(s, r) ==> e.compiles(r.pattern) {
      assert forall r :: r in s.commands.rules || r in s.pfe.rules || r in s.config ==> Written(s, r);
    }
  }

  /** A scope's rules with the defaults in front. */
  function Merged(d: Scope, own: Scope): Scope { Scope(d.rules + own.rules, d.allow + own.allow,
                                                       d.pipes + own.pipes) }

  predicate ScopeCompiles(s: Scope, e: Engine) {
    && (forall r <- s.rules :: e.compiles(r.pattern))
    && (forall a <- s.allow :: e.entryCompiles(a)) && (forall p <- s.pipes :: e.entryCompiles(p))
  }

  predicate SectionCompiles(s: Section, e: Engine) {
    ScopeCompiles(s.commands, e) && ScopeCompiles(s.pfe, e) && forall r <- s.config :: e.compiles(r.pattern)
  }

  function MergedSection(d: Section, own: Section): Section {
    Section(Merged(d.commands, own.commands), Merged(d.pfe, own.pfe), d.config + own.config)
  }

  class CompiledPolicy {
    const mode: Mode
    var perDevice: map<string, Section>
    const defaultPolicy: Section
    var devicesWithRules: nat

    constructor (mode: Mode, defaultPolicy: Section)
      ensures this.mode == mode && this.defaultPolicy == defaultPolicy && perDevice == map[] && devicesWithRules == 0
    {
      this.mode, this.defaultPolicy, perDevice, devicesWithRules := mode, defaultPolicy, map[], 0;
    }

    /** A router that was not in the inventory gets the defaults. */
    function For(router: string): Section
      reads this
    {
      if router in perDevice then perDevice[router] else defaultPolicy
    }
  }

  /** The rules that decide for a router. */
  function Effective(inv: Inventory, router: string): Section {
    MergedSection(DefaultSection(inv), if router in inv.devices then Own(inv.devices[router]) else NO_SECTION)
  }

  /** Compile the file. It fails exactly when some scope does not compile; otherwise every
      router gets the defaults with its own rules behind them, and nobody else's. */
  method Build(inv: Inventory, e: Engine) returns (p: Option<CompiledPolicy>)
    ensures p.Some? <==>
            && SectionCompiles(DefaultSection(inv), e)
            && forall n <- inv.devices :: SectionCompiles(Own(inv.devices[n]), e)
    ensures p.Some? ==> fresh(p.value) && p.value.mode == EffectiveMode(inv)
    ensures p.Some? ==> forall router :: p.value.For(router) == Effective(inv, router)
    ensures p.Some? ==> p.value.devicesWithRules == |Ruled(inv, inv.devices.Keys)|
  {
    var d := DefaultSection(inv);
    var policy := new CompiledPolicy(EffectiveMode(inv), d);
    MergeNothing(d);
    BuildCompiles(inv, e);
    var all := CompileEach(policy, inv, n => Effective(inv, n), n => SectionCompiles(Effective(inv, n), e));
    return if all && SectionCompiles(d, e) then Some(policy) else None;
  }

  /** Every device's merged section, as long as each compiles. */
  method CompileEach(policy: CompiledPolicy, inv: Inventory, merged: string -> Section,
                     compiles: string -> bool) returns (all: bool)
    requires policy.perDevice == map[] && policy.devicesWithRules == 0
    modifies policy
    ensures all <==> forall n :: n in inv.devices ==> compiles(n)
    ensures all ==>
              && policy.perDevice.Keys == inv.devices.Keys
              && forall n :: n in inv.devices ==> policy.perDevice[n] == merged(n)
    ensures all ==> policy.devicesWithRules == |Ruled(inv, inv.devices.Keys)|
  {
    var left := inv.devices.Keys;
    while left != {}
      invariant left <= inv.devices.Keys && policy.perDevice.Keys == inv.devices.Keys - left
      invariant forall n :: n in policy.perDevice ==> compiles(n) && policy.perDevice[n] == merged(n)
      invariant policy.devicesWithRules == |Ruled(inv, inv.devices.Keys - left)|
      decreases left
    {
      var n :| n in left;
      RuledGrows(inv, left, n);
      if HasRules(Own(inv.devices[n])) {
        policy.devicesWithRules := policy.devicesWithRules + 1;
      }
      left := left - {n};
      if !compiles(n) { return false; }
      policy.perDevice := policy.perDevice[n := merged(n)];
    }
    assert inv.devices.Keys - left == inv.devices.Keys;
    return true;
  }

  lemma BuildCompiles(inv: Inventory, e: Engine)
    ensures (SectionCompiles(DefaultSection(inv), e) && forall n :: n in inv.devices ==> SectionCompiles(Effective(inv, n), e))
       <==> (SectionCompiles(DefaultSection(inv), e) && forall n :: n in inv.devices ==> SectionCompiles(Own(inv.devices[n]), e))
  {
    forall n | n in inv.devices
      ensures SectionCompiles(Effective(inv, n), e) <==>
              SectionCompiles(DefaultSection(inv), e) && SectionCompiles(Own(inv.devices[n]), e)
    {
      MergeCompiles(DefaultSection(inv), Own(inv.devices[n]), e);
    }
  }

  /** Which of these devices have rules of their own. */
  function Ruled(inv: Inventory, names: set<string>): set<string> {
    set n | n in names && n in inv.devices && HasRules(Own(inv.devices[n]))
  }

  lemma RuledGrows(inv: Inventory, left: set<string>, n: string)
    requires n in left && left <= inv.devices.Keys
    ensures |Ruled(inv, inv.devices.Keys - (left - {n}))|
         == |Ruled(inv, inv.devices.Keys - left)| + if HasRules(Own(inv.devices[n])) then 1 else 0
  {
    var before, after := Ruled(inv, inv.devices.Keys - left), Ruled(inv, inv.devices.Keys - (left - {n}));
    assert n !in before;
    assert after == if HasRules(Own(inv.devices[n])) then before + {n} else before;
  }

  lemma MergeNoScope(s: Scope)
    ensures Merged(s, NO_SCOPE) == s
  {
    assert s.rules + [] == s.rules && s.allow + [] == s.allow && s.pipes + [] == s.pipes;
  }

  lemma MergeNothing(d: Section)
    ensures MergedSection(d, NO_SECTION) == d
  {
    MergeNoScope(d.commands);
    MergeNoScope(d.pfe);
    assert d.config + [] == d.config;
  }

  lemma MergeCompiles(d: Section, own: Section, e: Engine)
    ensures SectionCompiles(MergedSection(d, own), e) <==> SectionCompiles(d, e) && SectionCompiles(own, e)
  {
    ScopeMergeCompiles(d.commands, own.commands, e);
    ScopeMergeCompiles(d.pfe, own.pfe, e);
    assert forall r :: r in d.config + own.config <==> r in d.config || r in own.config;
  }

  lemma ScopeMergeCompiles(d: Scope, own: Scope, e: Engine)
    ensures ScopeCompiles(Merged(d, own), e) <==> ScopeCompiles(d, e) && ScopeCompiles(own, e)
  {
    assert forall r :: r in d.rules + own.rules <==> r in d.rules || r in own.rules;
    assert forall r :: r in d.allow + own.allow <==> r in d.allow || r in own.allow;
    assert forall r :: r in d.pipes + own.pipes <==> r in d.pipes || r in own.pipes;
  }

  // ----- deciding -----

  datatype Decision = Allow | Deny(rule: RuleSpec) | NotListed | ForbiddenCharacter

  /** The most specific rule that matches; of equals the later one, so a device's rule
      wins over a default. */
  function Winner(rules: seq<RuleSpec>, input: string, e: Engine): Option<RuleSpec> {
    if rules == [] then None
    else
      var earlier, r := Winner(rules[..|rules| - 1], input, e), rules[|rules| - 1];
      if !e.globs(r.pattern, input) then earlier
      else if earlier.Some? && e.specificity(earlier.value.pattern) > e.specificity(r.pattern) then earlier
      else Some(r)
  }

  predicate Listed(s: Scope, command: string, e: Engine) {
    (exists a <- s.allow :: e.prefixes(a, command)) && e.pipesAllowed(s.pipes, command)
  }

  predicate IsPlain(c: char) { ' ' <= c <= '~' }

  predicate HasDisallowedCharacter(command: string) { exists c <- command :: !IsPlain(c) }

  function Listing(mode: Mode, s: Scope, command: string, e: Engine): Decision {
    match mode
    case Allowlist => if Listed(s, command, e) then Allow else NotListed
    case Blocklist =>
      var w := Winner(s.rules, e.normalize(command), e);
      if w.Some? && w.value.deny then Deny(w.value) else Allow
  }

  function Carveout(mode: Mode, s: Scope, command: string, d: Decision, e: Engine): Decision {
    if mode != Allowlist || d != Allow then d
    else
      var w := Winner(s.rules, e.normalize(command), e);
      if w.Some? && w.value.deny then Deny(w.value) else d
  }

  function Check(mode: Mode, s: Scope, command: string, e: Engine): Decision {
    if mode == Allowlist && HasDisallowedCharacter(command) then ForbiddenCharacter
    else Carveout(mode, s, command, Listing(mode, s, command, e), e)
  }

  /** The verdict on a command for a router, in either domain. */
  function Verdict(inv: Inventory, router: string, pfe: bool, command: string, e: Engine): Decision {
    var s := Effective(inv, router);
    Check(EffectiveMode(inv), if pfe then s.pfe else s.commands, command, e)
  }

  // ----- main results -----

  /** With an explicit mode a verdict depends on the defaults and the router's own entry
      only, whatever happens to other routers. */
  lemma OthersDoNotMatter(a: Inventory, b: Inventory, router: string, pfe: bool, command: string, e: Engine)
    requires a.defaults == b.defaults && a.defaults.Some? && a.defaults.value.mode.Some?
    requires router in a.devices <==> router in b.devices
    requires router in a.devices ==> a.devices[router] == b.devices[router]
    ensures Verdict(a, router, pfe, command, e) == Verdict(b, router, pfe, command, e)
  {}

  /** The same defaults and the same entry, or none, for this router. */
  ghost predicate SameFor(a: Inventory, b: Inventory, router: string) {
    && a.defaults == b.defaults
    && (router in a.devices <==> router in b.devices)
    && (router in a.devices ==> a.devices[router] == b.devices[router])
  }

  predicate ExplicitMode(inv: Inventory) { inv.defaults.Some? && inv.defaults.value.mode.Some? }

  function OwnEntry(inv: Inventory, router: string): Section {
    if router in inv.devices then Own(inv.devices[router]) else NO_SECTION
  }

  /** The rules and prefixes that decide in one domain. */
  function DomainScope(inv: Inventory, router: string, pfe: bool): Scope {
    if pfe then Effective(inv, router).pfe else Effective(inv, router).commands
  }

  lemma SameForMeansSameRules(a: Inventory, b: Inventory, router: string)
    requires SameFor(a, b, router)
    ensures Effective(a, router) == Effective(b, router) && DefaultSection(a) == DefaultSection(b)
    ensures OwnEntry(a, router) == OwnEntry(b, router)
  {}

  /** Both modes say the same of the command. */
  predicate ModesAgree(s: Scope, command: string, e: Engine) {
    Check(Allowlist, s, command, e) == Check(Blocklist, s, command, e)
  }

  /** Other routers' entries, present or to come, never change a verdict exactly when the
      mode is explicit, or the defaults or the router itself have rules, or both modes
      would say the same of the command anyway. */
  lemma OthersMatterExactlyWhen(a: Inventory, router: string, pfe: bool, command: string, e: Engine)
    ensures (forall b :: SameFor(a, b, router) ==> Verdict(b, router, pfe, command, e) == Verdict(a, router, pfe, command, e))
       <==> ExplicitMode(a) || HasRules(DefaultSection(a)) || HasRules(OwnEntry(a, router))
            || ModesAgree(DomainScope(a, router, pfe), command, e)
  {
    var s := DomainScope(a, router, pfe);
    if ExplicitMode(a) || HasRules(DefaultSection(a)) || HasRules(OwnEntry(a, router))
       || ModesAgree(s, command, e) {
      forall b | SameFor(a, b, router) ensures Verdict(b, router, pfe, command, e) == Verdict(a, router, pfe, command, e) {
        SameForMeansSameRules(a, b, router);
        ModeIsFixed(a, b, router);
      }
    } else {
      var quiet, ruled := Alone(a, router, NO_SECTION), Alone(a, router, NO_SECTION.(config := [RuleSpec(true, "")]));
      AloneModes(a, router);
      SameForMeansSameRules(a, quiet, router);
      SameForMeansSameRules(a, ruled, router);
      assert Verdict(quiet, router, pfe, command, e) != Verdict(ruled, router, pfe, command, e);
    }
  }

  lemma ModeIsFixed(a: Inventory, b: Inventory, router: string)
    requires SameFor(a, b, router)
    ensures ExplicitMode(a) || HasRules(DefaultSection(a)) || HasRules(OwnEntry(a, router)) ==>
              EffectiveMode(a) == EffectiveMode(b)
  {
    if router in a.devices && HasRules(OwnEntry(a, router)) {
      assert router in b.devices && HasRules(Own(b.devices[router])) && HasRules(Own(a.devices[router]));
    }
  }

  /** This router's entry as it is, and one other router with this section. */
  function Alone(a: Inventory, router: string, other: Section): Inventory {
    var rest := map[router + "x" := Some(other)];
    a.(devices := if router in a.devices then rest[router := a.devices[router]] else rest)
  }

  lemma AloneModes(a: Inventory, router: string)
    requires !ExplicitMode(a) && !HasRules(DefaultSection(a)) && !HasRules(OwnEntry(a, router))
    ensures var quiet, ruled := Alone(a, router, NO_SECTION), Alone(a, router, NO_SECTION.(config := [RuleSpec(true, "")]));
            && SameFor(a, quiet, router) && SameFor(a, ruled, router)
            && EffectiveMode(quiet) == Allowlist && EffectiveMode(ruled) == Blocklist
  {
    var other := router + "x";
    assert |other| != |router|;
    var quiet, ruled := Alone(a, router, NO_SECTION), Alone(a, router, NO_SECTION.(config := [RuleSpec(true, "")]));
    assert forall n :: n in quiet.devices ==> !HasRules(Own(quiet.devices[n]));
    assert other in ruled.devices && HasRules(Own(ruled.devices[other]));
  }

  /** Where none of these holds: a file without defaults in which another router gets its
      first rule allows what it refused. */
  lemma AnotherRouterCanSwitchTheMode(e: Engine, rule: RuleSpec)
    ensures var quiet := Inventory(None, map["a" := None, "b" := None]);
            var ruled := Inventory(None, map["a" := None, "b" := Some(NO_SECTION.(config := [rule]))]);
            && Verdict(quiet, "a", false, "show version", e) == NotListed
            && Verdict(ruled, "a", false, "show version", e) == Allow
  {
    var quiet := Inventory(None, map["a" := None, "b" := None]);
    var ruled := Inventory(None, map["a" := None, "b" := Some(NO_SECTION.(config := [rule]))]);
    assert forall n <- quiet.devices :: !HasRules(Own(quiet.devices[n]));
    assert "b" in ruled.devices && HasRules(Own(ruled.devices["b"]));
    assert forall c <- "show version" :: IsPlain(c);
    assert Effective(quiet, "a") == NO_SECTION && Effective(ruled, "a") == NO_SECTION;
  }

  /** The rule at this place matches, none before it is more specific among those that
      match, and every matching one behind it is less specific. */
  predicate WinsAt(rules: seq<RuleSpec>, k: nat, input: string, e: Engine) {
    && k < |rules| && e.globs(rules[k].pattern, input)
    && (forall j | 0 <= j < k && e.globs(rules[j].pattern, input) ::
          e.specificity(rules[j].pattern) <= e.specificity(rules[k].pattern))
    && (forall j | k < j < |rules| && e.globs(rules[j].pattern, input) ::
          e.specificity(rules[j].pattern) < e.specificity(rules[k].pattern))
  }

  /** There is a winner exactly when some rule matches: the most specific match, and of
      equally specific ones the last. */
  lemma {:induction false} WinnerIsMostSpecific(rules: seq<RuleSpec>, input: string, e: Engine)
    ensures Winner(rules, input, e).None? <==> forall r :: r in rules ==> !e.globs(r.pattern, input)
    ensures forall k: nat :: WinsAt(rules, k, input, e) ==> Winner(rules, input, e) == Some(rules[k])
    ensures Winner(rules, input, e).Some? ==> exists k: nat :: WinsAt(rules, k, input, e)
  {
    if rules != [] {
      var n := |rules| - 1;
      var earlier, r := rules[..n], rules[n];
      WinnerIsMostSpecific(earlier, input, e);
      assert rules == earlier + [r];
      if Winner(earlier, input, e).Some? {
        var k: nat :| WinsAt(earlier, k, input, e);
        WinsAfter(earlier, r, k, input, e);
      } else if e.globs(r.pattern, input) {
        FirstMatchWins(earlier, r, input, e);
      }
      WinnersPlace(rules, input, e);
    }
  }

  lemma WinsAfter(rules: seq<RuleSpec>, r: RuleSpec, k: nat, input: string, e: Engine)
    requires WinsAt(rules, k, input, e)
    ensures if e.globs(r.pattern, input) && e.specificity(r.pattern) >= e.specificity(rules[k].pattern) then
              WinsAt(rules + [r], |rules|, input, e)
            else WinsAt(rules + [r], k, input, e)
  {}

  lemma FirstMatchWins(rules: seq<RuleSpec>, r: RuleSpec, input: string, e: Engine)
    requires e.globs(r.pattern, input) && forall q :: q in rules ==> !e.globs(q.pattern, input)
    ensures WinsAt(rules + [r], |rules|, input, e)
  {}

  /** At most one place wins. */
  lemma WinnersPlace(rules: seq<RuleSpec>, input: string, e: Engine)
    ensures forall j: nat, k: nat :: WinsAt(rules, j, input, e) && WinsAt(rules, k, input, e) ==> j == k
  {}

  /** In each domain a router's rules and prefixes are the defaults with its own behind them. */
  lemma DefaultsComeFirst(inv: Inventory, router: string)
    ensures var d, own, s := DefaultSection(inv), OwnEntry(inv, router), Effective(inv, router);
            && s.commands.rules == d.commands.rules + own.commands.rules && s.pfe.rules == d.pfe.rules + own.pfe.rules
            && s.config == d.config + own.config
            && s.commands.allow == d.commands.allow + own.commands.allow && s.pfe.allow == d.pfe.allow + own.pfe.allow
            && s.commands.pipes == d.commands.pipes + own.commands.pipes && s.pfe.pipes == d.pfe.pipes + own.pfe.pipes
  {}

  /** The rule that decides for a router: at this place of the defaults with the router's
      own rules behind them. */
  predicate Decides(inv: Inventory, router: string, pfe: bool, k: nat, command: string, e: Engine) {
    WinsAt(DomainRules(inv, router, pfe), k, e.normalize(command), e)
  }

  function DomainRules(inv: Inventory, router: string, pfe: bool): seq<RuleSpec> {
    var d, own := DefaultSection(inv), OwnEntry(inv, router);
    if pfe then d.pfe.rules + own.pfe.rules else d.commands.rules + own.commands.rules
  }

  /** A deny rule decides. */
  ghost predicate Refused(inv: Inventory, router: string, pfe: bool, command: string, e: Engine, r: RuleSpec) {
    r.deny && exists k: nat :: Decides(inv, router, pfe, k, command, e) && DomainRules(inv, router, pfe)[k] == r
  }

  /** Some prefix allowed in the defaults or to the router begins the command, and so much
      for its pipes. */
  ghost predicate ListedFor(inv: Inventory, router: string, pfe: bool, command: string, e: Engine) {
    var d, own := DefaultSection(inv), OwnEntry(inv, router);
    if pfe then
      && (exists a :: (a in d.pfe.allow || a in own.pfe.allow) && e.prefixes(a, command))
      && e.pipesAllowed(d.pfe.pipes + own.pfe.pipes, command)
    else
      && (exists a :: (a in d.commands.allow || a in own.commands.allow) && e.prefixes(a, command))
      && e.pipesAllowed(d.commands.pipes + own.commands.pipes, command)
  }

  /** In blocklist mode a command is refused, with that rule, exactly when the most specific
      rule that matches is a deny rule, and allowed otherwise. */
  lemma BlocklistVerdict(inv: Inventory, router: string, pfe: bool, command: string, e: Engine)
    requires EffectiveMode(inv) == Blocklist
    ensures forall r :: Verdict(inv, router, pfe, command, e) == Deny(r) <==> Refused(inv, router, pfe, command, e, r)
    ensures Verdict(inv, router, pfe, command, e) == Allow <==> forall r :: !Refused(inv, router, pfe, command, e, r)
  {
    DecidingRule(inv, router, pfe, command, e);
  }

  /** In allowlist mode a command with a character that is not printable ASCII or a space is
      refused for that, one that is not listed for that, and one that is both plain and
      listed exactly when, and with that rule, the most specific rule that matches is a deny
      rule. */
  lemma AllowlistVerdict(inv: Inventory, router: string, pfe: bool, command: string, e: Engine)
    requires EffectiveMode(inv) == Allowlist
    ensures var plain, v := forall c :: c in command ==> ' ' <= c <= '~', Verdict(inv, router, pfe, command, e);
            && (v == ForbiddenCharacter <==> !plain)
            && (v == NotListed <==> plain && !ListedFor(inv, router, pfe, command, e))
            && (forall r :: v == Deny(r) <==>
                            plain && ListedFor(inv, router, pfe, command, e) && Refused(inv, router, pfe, command, e, r))
            && (v == Allow <==>
                && plain && ListedFor(inv, router, pfe, command, e)
                && forall r :: !Refused(inv, router, pfe, command, e, r))
  {
    DecidingRule(inv, router, pfe, command, e);
    ListedInEither(inv, router, pfe, command, e);
  }

  lemma DecidingRule(inv: Inventory, router: string, pfe: bool, command: string, e: Engine)
    ensures var w := Winner(DomainScope(inv, router, pfe).rules, e.normalize(command), e);
            forall r :: Refused(inv, router, pfe, command, e, r) <==> w == Some(r) && r.deny
  {
    assert DomainScope(inv, router, pfe).rules == DomainRules(inv, router, pfe);
    WinnerIsMostSpecific(DomainRules(inv, router, pfe), e.normalize(command), e);
  }

  lemma ListedInEither(inv: Inventory, router: string, pfe: bool, command: string, e: Engine)
    ensures Listed(DomainScope(inv, router, pfe), command, e) <==> ListedFor(inv, router, pfe, command, e)
  {
    var d, own := DefaultSection(inv), OwnEntry(inv, router);
    assert forall a :: a in DomainScope(inv, router, pfe).allow <==>
                       if pfe then a in d.pfe.allow || a in own.pfe.allow else a in d.commands.allow || a in own.commands.allow;
  }

  lemma WinnerSnoc(rules: seq<RuleSpec>, r: RuleSpec, input: string, e: Engine)
    ensures Winner(rules + [r], input, e) ==
            var w := Winner(rules, input, e);
            if !e.globs(r.pattern, input) then w
            else if w.Some? && e.specificity(w.value.pattern) > e.specificity(r.pattern) then w
            else Some(r)
  {
    assert (rules + [r])[..|rules|] == rules;
  }

  /** A rule added anywhere either wins or changes nothing. */
  lemma {:induction false} OneMoreRule(a: seq<RuleSpec>, r: RuleSpec, b: seq<RuleSpec>, input: string, e: Engine)
    ensures var added, plain := Winner(a + [r] + b, input, e), Winner(a + b, input, e);
            && (added == plain || added == Some(r))
            && (plain.Some? ==> added.Some? && e.specificity(added.value.pattern) >= e.specificity(plain.value.pattern))
    decreases |b|
  {
    if b == [] {
      assert a + [r] + b == a + [r] && a + b == a;
      WinnerSnoc(a, r, input, e);
    } else {
      var c, last := b[..|b| - 1], b[|b| - 1];
      assert a + [r] + b == (a + [r] + c) + [last] && a + b == (a + c) + [last];
      OneMoreRule(a, r, c, input, e);
      WinnerSnoc(a + [r] + c, last, input, e);
      WinnerSnoc(a + c, last, input, e);
    }
  }

  /** A device's rule that is at least as specific as every default that matches keeps the
      defaults from deciding. */
  lemma OwnRuleBeatsDefaults(defaults: seq<RuleSpec>, own: seq<RuleSpec>, mine: nat, input: string, e: Engine)
    requires mine < |own| && e.globs(own[mine].pattern, input)
    requires forall d :: d in defaults && e.globs(d.pattern, input) ==>
                           e.specificity(d.pattern) <= e.specificity(own[mine].pattern)
    ensures Winner(defaults + own, input, e) == Winner(own, input, e) && Winner(own, input, e).Some?
  {
    WinnerIsMostSpecific(own, input, e);
    WinnerIsMostSpecific(defaults + own, input, e);
    assert own[mine] in own;
    var k: nat :| WinsAt(own, k, input, e);
    var rules := defaults + own;
    assert rules[|defaults| + k] == own[k];
    forall j | 0 <= j < |rules| && e.globs(rules[j].pattern, input)
      ensures e.specificity(rules[j].pattern) <= e.specificity(own[k].pattern)
      ensures j > |defaults| + k ==> e.specificity(rules[j].pattern) < e.specificity(own[k].pattern)
    {
      if j < |defaults| {
        assert rules[j] == defaults[j] && defaults[j] in defaults;
        assert e.specificity(own[mine].pattern) <= e.specificity(own[k].pattern);
      } else {
        assert rules[j] == own[j - |defaults|];
      }
    }
    assert WinsAt(rules, |defaults| + k, input, e);
  }

  /** The second list is the first with any number of deny rules put in, anywhere. */
  predicate DeniesAmong(s: seq<RuleSpec>, t: seq<RuleSpec>)
    decreases |t|
  {
    if t == [] then s == []
    else
      var last, before := t[|t| - 1], t[..|t| - 1];
      || (last.deny && DeniesAmong(s, before))
      || (s != [] && s[|s| - 1] == last && DeniesAmong(s[..|s| - 1], before))
  }

  /** Only deny rules are new; which configuration rules there are decides no command. */
  predicate ScopeGains(s: Scope, t: Scope) { DeniesAmong(s.rules, t.rules) && s.allow == t.allow && s.pipes == t.pipes }

  predicate SectionGains(s: Section, t: Section) {
    ScopeGains(s.commands, t.commands) && ScopeGains(s.pfe, t.pfe) && DeniesAmong(s.config, t.config)
  }

  function GivenMode(inv: Inventory): Option<Mode> { if inv.defaults.Some? then inv.defaults.value.mode else None }

  /** The second file is the first with deny rules added to the defaults and to any devices. */
  ghost predicate DeniesAdded(a: Inventory, b: Inventory) {
    && GivenMode(a) == GivenMode(b)
    && SectionGains(DefaultSection(a), DefaultSection(b))
    && forall n :: SectionGains(OwnEntry(a, n), OwnEntry(b, n))
  }

  lemma {:induction false} SameIsAmong(s: seq<RuleSpec>)
    ensures DeniesAmong(s, s)
  {
    if s != [] { SameIsAmong(s[..|s| - 1]); }
  }

  lemma {:induction false} InsertedIsAmong(a: seq<RuleSpec>, r: RuleSpec, b: seq<RuleSpec>)
    requires r.deny
    ensures DeniesAmong(a + b, a + [r] + b)
    decreases |b|
  {
    var s, t := a + b, a + [r] + b;
    if b == [] {
      assert s == a && t[..|t| - 1] == a;
      SameIsAmong(a);
    } else {
      var c := b[..|b| - 1];
      assert s[..|s| - 1] == a + c && t[..|t| - 1] == a + [r] + c;
      InsertedIsAmong(a, r, c);
    }
  }

  lemma {:induction false} AmongAppend(d: seq<RuleSpec>, d': seq<RuleSpec>, s: seq<RuleSpec>, t: seq<RuleSpec>)
    requires DeniesAmong(d, d') && DeniesAmong(s, t)
    ensures DeniesAmong(d + s, d' + t)
    decreases |t|
  {
    if t == [] {
      assert d + s == d && d' + t == d';
    } else {
      var before := t[..|t| - 1];
      assert (d' + t)[..|d' + t| - 1] == d' + before;
      if t[|t| - 1].deny && DeniesAmong(s, before) {
        AmongAppend(d, d', s, before);
      } else {
        assert (d + s)[..|d + s| - 1] == d + s[..|s| - 1];
        AmongAppend(d, d', s[..|s| - 1], before);
      }
    }
  }

  /** The winner stays, or a deny rule at least as specific takes its place. */
  lemma {:induction false} WinnerAmong(s: seq<RuleSpec>, t: seq<RuleSpec>, input: string, e: Engine)
    requires DeniesAmong(s, t)
    ensures var v, w := Winner(s, input, e), Winner(t, input, e);
            w == v || (w.Some? && w.value.deny && (v.Some? ==> e.specificity(v.value.pattern) <= e.specificity(w.value.pattern)))
    decreases |t|
  {
    if t != [] {
      var last, before := t[|t| - 1], t[..|t| - 1];
      if last.deny && DeniesAmong(s, before) {
        WinnerAmong(s, before, input, e);
      } else {
        WinnerAmong(s[..|s| - 1], before, input, e);
      }
    }
  }

  lemma GainsAdd(a: Inventory, b: Inventory, router: string, pfe: bool)
    requires DeniesAdded(a, b)
    ensures ScopeGains(DomainScope(a, router, pfe), DomainScope(b, router, pfe))
  {
    var d, d', s, t := DefaultSection(a), DefaultSection(b), OwnEntry(a, router), OwnEntry(b, router);
    assert SectionGains(s, t);
    AmongAppend(d.commands.rules, d'.commands.rules, s.commands.rules, t.commands.rules);
    AmongAppend(d.pfe.rules, d'.pfe.rules, s.pfe.rules, t.pfe.rules);
  }

  lemma ModeAfterDenies(a: Inventory, b: Inventory)
    requires DeniesAdded(a, b) && (ExplicitMode(a) || EffectiveMode(a) == Blocklist)
    ensures EffectiveMode(a) == EffectiveMode(b)
  {
    if !ExplicitMode(a) && !HasRules(DefaultSection(a)) {
      var n :| n in a.devices && HasRules(Own(a.devices[n]));
      assert SectionGains(OwnEntry(a, n), OwnEntry(b, n));
      assert n in b.devices && HasRules(Own(b.devices[n]));
    }
  }

  /** Whatever deny rules are added, wherever in the file, they allow nothing new, exactly
      when the mode is explicit, or the file had a rule already, or the command was
      allowed anyway: the first rule of a file without a mode turns it fail-open. */
  lemma DenyOnlyRefuses(a: Inventory, router: string, pfe: bool, command: string, e: Engine)
    ensures (forall b :: DeniesAdded(a, b) && Verdict(b, router, pfe, command, e) == Allow ==>
                           Verdict(a, router, pfe, command, e) == Allow)
       <==> ExplicitMode(a) || EffectiveMode(a) == Blocklist || Verdict(a, router, pfe, command, e) == Allow
  {
    if ExplicitMode(a) || EffectiveMode(a) == Blocklist {
      forall b | DeniesAdded(a, b) && Verdict(b, router, pfe, command, e) == Allow
        ensures Verdict(a, router, pfe, command, e) == Allow
      {
        GainsAdd(a, b, router, pfe);
        ModeAfterDenies(a, b);
        WinnerAmong(DomainScope(a, router, pfe).rules, DomainScope(b, router, pfe).rules, e.normalize(command), e);
      }
    } else if Verdict(a, router, pfe, command, e) != Allow {
      var b := WithFirstDeny(a);
      FirstDenyAdded(a);
      NoRulesDecide(a, router, pfe);
      assert DomainScope(b, router, pfe).rules == [];
      assert Verdict(b, router, pfe, command, e) == Allow;
    }
  }

  /** One deny rule for configuration commands in the defaults. */
  function WithFirstDeny(a: Inventory): Inventory {
    a.(defaults := Some(Defaults(GivenMode(a), DefaultSection(a).(config := [RuleSpec(true, "")]))))
  }

  lemma FirstDenyAdded(a: Inventory)
    requires !ExplicitMode(a) && EffectiveMode(a) == Allowlist
    ensures DeniesAdded(a, WithFirstDeny(a)) && EffectiveMode(WithFirstDeny(a)) == Blocklist
  {
    var b, r := WithFirstDeny(a), RuleSpec(true, "");
    assert [r][..0] == [] && DeniesAmong([], [r]);
    forall s: Section ensures SectionGains(s, s) {
      SameIsAmong(s.commands.rules);
      SameIsAmong(s.pfe.rules);
      SameIsAmong(s.config);
    }
  }

  lemma NoRulesDecide(a: Inventory, router: string, pfe: bool)
    requires !ExplicitMode(a) && EffectiveMode(a) == Allowlist
    ensures DomainScope(a, router, pfe).rules == []
    ensures DomainScope(WithFirstDeny(a), router, pfe).rules == []
  {
    assert !HasRules(OwnEntry(a, router));
  }

  /** In allowlist mode more prefixes and more pipes refuse nothing that was allowed. */
  lemma PrefixOnlyAllows(s: Scope, t: Scope, command: string, e: Engine)
    requires Monotone(e) && t.rules == s.rules
    requires (forall a :: a in s.allow ==> a in t.allow) && (forall p :: p in s.pipes ==> p in t.pipes)
    ensures Check(Allowlist, s, command, e) == Allow ==> Check(Allowlist, t, command, e) == Allow
  {
    assert e.pipesAllowed(s.pipes, command) ==> e.pipesAllowed(t.pipes, command);
    assert Listed(s, command, e) ==> Listed(t, command, e);
  }
}
