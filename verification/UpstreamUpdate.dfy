/** Reconciling a channel's models with what its upstream offers: detecting what is missing
    or gone, staging it, and applying a selection or all of it.
 */
module UpstreamUpdate {
  import opened Text
  import opened ModelNames

  /** Whether a regular expression matches a name; false for an invalid expression. */
  type Regex = (string, string) -> bool

  const REGEX_PREFIX := "regex:"

  /** What a check sees: the upstream's list, the channel's redirects, and the matcher. */
  datatype Upstream = Upstream(models: seq<string>, mapping: map<string, string>, regex: Regex)

  /** The stored part of a channel: its models joined by commas, the ignore rules, and the
      changes staged by the last check. */
  datatype Channel = Channel(models: string, ignored: seq<string>, pendingAdd: seq<string>, pendingRemove: seq<string>)

  function LocalModels(c: Channel): seq<string> {
    Normalize(GetModels(c.models))
  }

  // --------------------------------------------------------------- detecting

  /** An ignore rule is a literal name or, with the prefix, a regular expression. */
  predicate Ignores(rule: string, name: string, regex: Regex) {
    if REGEX_PREFIX <= rule then regex(TrimSpace(rule[|REGEX_PREFIX|..]), name) else rule == name
  }

  predicate IsIgnored(name: string, rules: seq<string>, regex: Regex) {
    exists i :: 0 <= i < |rules| && Ignores(rules[i], name, regex)
  }

  /** The channel already serves the name, itself or as the target of a redirect. */
  predicate Covered(name: string, local: seq<string>, up: Upstream) {
    name in local || name in up.mapping.Values
  }

  predicate Missing(name: string, local: seq<string>, rules: seq<string>, up: Upstream) {
    !Covered(name, local, up) && !IsIgnored(name, rules, up.regex)
  }

  /** A local model the upstream does not offer; the source of a redirect is an alias and
      stays. */
  predicate Gone(name: string, offered: seq<string>, up: Upstream) {
    name !in up.mapping && name !in offered
  }

  function SelectMissing(names: seq<string>, local: seq<string>, rules: seq<string>, up: Upstream): seq<string> {
    if names == [] then []
    else
      var last := names[|names| - 1];
      SelectMissing(names[..|names| - 1], local, rules, up) + (if Missing(last, local, rules, up) then [last] else [])
  }

  function SelectGone(names: seq<string>, offered: seq<string>, up: Upstream): seq<string> {
    if names == [] then []
    else
      var last := names[|names| - 1];
      SelectGone(names[..|names| - 1], offered, up) + (if Gone(last, offered, up) then [last] else [])
  }

  /** `collectPendingUpstreamModelChangesFromModels`, additions */
  function PendingAdds(c: Channel, up: Upstream): seq<string> {
    Normalize(SelectMissing(Normalize(up.models), LocalModels(c), Normalize(c.ignored), up))
  }

  /** `collectPendingUpstreamModelChangesFromModels`, removals */
  function PendingRemoves(c: Channel, up: Upstream): seq<string> {
    Normalize(SelectGone(LocalModels(c), Normalize(up.models), up))
  }

  lemma {:induction false} SelectMissingNames(names: seq<string>, local: seq<string>, rules: seq<string>, up: Upstream)
    ensures forall x :: x in SelectMissing(names, local, rules, up) <==> x in names && Missing(x, local, rules, up)
    ensures Normal(names) ==> Normal(SelectMissing(names, local, rules, up))
  {
    if names != [] {
      SelectMissingNames(names[..|names| - 1], local, rules, up);
      assert names == names[..|names| - 1] + [names[|names| - 1]];
    }
  }

  lemma {:induction false} SelectGoneNames(names: seq<string>, offered: seq<string>, up: Upstream)
    ensures forall x :: x in SelectGone(names, offered, up) <==> x in names && Gone(x, offered, up)
    ensures Normal(names) ==> Normal(SelectGone(names, offered, up))
  {
    if names != [] {
      SelectGoneNames(names[..|names| - 1], offered, up);
      assert names == names[..|names| - 1] + [names[|names| - 1]];
    }
  }

  /** Detection finds exactly the missing and the gone models, as normal lists. */
  lemma {:induction false} PendingNames(c: Channel, up: Upstream)
    ensures Normal(PendingAdds(c, up)) && Normal(PendingRemoves(c, up))
    ensures forall x :: x in PendingAdds(c, up) <==>
              x in Normalize(up.models) && Missing(x, LocalModels(c), Normalize(c.ignored), up)
    ensures forall x :: x in PendingRemoves(c, up) <==> x in LocalModels(c) && Gone(x, Normalize(up.models), up)
    ensures forall x :: x in PendingAdds(c, up) ==> x !in LocalModels(c) && x !in PendingRemoves(c, up)
  {
    NormalizeNames(up.models);
    NormalizeNames(GetModels(c.models));
    SelectMissingNames(Normalize(up.models), LocalModels(c), Normalize(c.ignored), up);
    SelectGoneNames(LocalModels(c), Normalize(up.models), up);
    NormalizeFixpoint(SelectMissing(Normalize(up.models), LocalModels(c), Normalize(c.ignored), up));
    NormalizeFixpoint(SelectGone(LocalModels(c), Normalize(up.models), up));
  }

  /** A check that only stages what it finds. */
  function Detect(c: Channel, up: Upstream): Channel {
    c.(pendingAdd := PendingAdds(c, up), pendingRemove := PendingRemoves(c, up))
  }

  /** A check that adopts new models at once (automatic synchronisation). */
  function DetectAndAdopt(c: Channel, up: Upstream): Channel {
    var adds := PendingAdds(c, up);
    if adds == [] then Detect(c, up)
    else
      var merged := Merge(LocalModels(c), adds);
      c.(models := if |merged| > |LocalModels(c)| then JoinModels(merged) else c.models,
         pendingAdd := [], pendingRemove := PendingRemoves(c, up))
  }

  // ---------------------------------------------------------------- applying

  /** `applySelectedModelChanges`: adding wins over removing. */
  function ApplySelected(origin: seq<string>, add: seq<string>, remove: seq<string>): seq<string> {
    var normalAdd := Normalize(add);
    Subtract(Merge(origin, normalAdd), Subtract(Normalize(remove), normalAdd))
  }

  datatype Selection = Selection(add: seq<string>, ignore: seq<string>, remove: seq<string>)

  function Added(c: Channel, s: Selection): seq<string> {
    Intersect(s.add, Normalize(c.pendingAdd))
  }

  function NewlyIgnored(c: Channel, s: Selection): seq<string> {
    Intersect(s.ignore, Normalize(c.pendingAdd))
  }

  function Removed(c: Channel, s: Selection): seq<string> {
    Subtract(Intersect(s.remove, Normalize(c.pendingRemove)), Added(c, s))
  }

  function NextModels(c: Channel, s: Selection): seq<string> {
    ApplySelected(LocalModels(c), Added(c, s), Removed(c, s))
  }

  predicate ModelsChanged(c: Channel, s: Selection) {
    LocalModels(c) != NextModels(c, s)
  }

  function NextIgnored(c: Channel, s: Selection): seq<string> {
    var merged := Merge(c.ignored, NewlyIgnored(c, s));
    if |Added(c, s)| > 0 then Subtract(merged, Added(c, s)) else merged
  }

  /** `applyChannelUpstreamModelUpdates` */
  function Apply(c: Channel, s: Selection): Channel {
    Channel(
      if ModelsChanged(c, s) then JoinModels(NextModels(c, s)) else c.models,
      NextIgnored(c, s),
      Subtract(Normalize(c.pendingAdd), Added(c, s) + NewlyIgnored(c, s)),
      Subtract(Normalize(c.pendingRemove), Removed(c, s)))
  }

  /** Applying everything that is staged. */
  function ApplyAll(c: Channel): Channel {
    Apply(c, Selection(Normalize(c.pendingAdd), [], Normalize(c.pendingRemove)))
  }

  lemma {:induction false} SubtractNames(base: seq<string>, removed: seq<string>)
    ensures Normal(Subtract(base, removed))
    ensures forall x :: x in Subtract(base, removed) <==> x in Normalize(base) && x !in Normalize(removed)
  {
    NormalizeNames(base);
    WithoutNames(Normalize(base), SetOf(Normalize(removed)));
  }

  lemma {:induction false} IntersectNames(base: seq<string>, allowed: seq<string>)
    ensures Normal(Intersect(base, allowed))
    ensures forall x :: x in Intersect(base, allowed) <==> x in Normalize(base) && x in Normalize(allowed)
  {
    NormalizeNames(base);
    KeepNames(Normalize(base), SetOf(Normalize(allowed)));
  }

  /** The new list holds the old models and the added ones, less those removed and not
      added. */
  lemma {:induction false} ApplySelectedNames(origin: seq<string>, add: seq<string>, remove: seq<string>)
    ensures Normal(ApplySelected(origin, add, remove))
    ensures forall x :: x in ApplySelected(origin, add, remove) <==>
              (x in Normalize(origin) || x in Normalize(add)) && (x !in Normalize(remove) || x in Normalize(add))
  {
    NormalizeNames(add);
    NormalizeNames(remove);
    NormalizeFixpoint(Normalize(add));
    NormalizeFixpoint(Normalize(remove));
    var drop := Subtract(Normalize(remove), Normalize(add));
    SubtractNames(Normalize(remove), Normalize(add));
    NormalizeFixpoint(drop);
    var merged := Merge(origin, Normalize(add));
    MergeNames(origin, Normalize(add));
    NormalizeFixpoint(merged);
    SubtractNames(merged, drop);
  }

  lemma {:induction false} LocalIsNormal(c: Channel)
    ensures Normal(LocalModels(c)) && Normalize(LocalModels(c)) == LocalModels(c)
  {
    NormalizeNames(GetModels(c.models));
    NormalizeFixpoint(LocalModels(c));
  }

  lemma {:induction false} ChosenNames(c: Channel, s: Selection)
    ensures Normal(Added(c, s)) && Normal(NewlyIgnored(c, s)) && Normal(Removed(c, s))
    ensures Normalize(Added(c, s)) == Added(c, s) && Normalize(NewlyIgnored(c, s)) == NewlyIgnored(c, s)
    ensures Normalize(Removed(c, s)) == Removed(c, s)
    ensures forall x :: x in Added(c, s) <==> x in Normalize(s.add) && x in Normalize(c.pendingAdd)
    ensures forall x :: x in NewlyIgnored(c, s) <==> x in Normalize(s.ignore) && x in Normalize(c.pendingAdd)
    ensures forall x :: x in Removed(c, s) <==>
              x in Normalize(s.remove) && x in Normalize(c.pendingRemove) && x !in Added(c, s)
  {
    NormalizeNames(c.pendingAdd);
    NormalizeFixpoint(Normalize(c.pendingAdd));
    NormalizeNames(c.pendingRemove);
    NormalizeFixpoint(Normalize(c.pendingRemove));
    IntersectNames(s.add, Normalize(c.pendingAdd));
    IntersectNames(s.ignore, Normalize(c.pendingAdd));
    NormalizeFixpoint(Added(c, s));
    NormalizeFixpoint(NewlyIgnored(c, s));
    var chosen := Intersect(s.remove, Normalize(c.pendingRemove));
    IntersectNames(s.remove, Normalize(c.pendingRemove));
    NormalizeFixpoint(chosen);
    SubtractNames(chosen, Added(c, s));
    NormalizeFixpoint(Removed(c, s));
  }

  /** A selection splits the staged additions exactly: each one is added, or ignored and not
      added, or remains staged. */
  lemma {:induction false} SelectionSplitsPending(c: Channel, s: Selection, x: string)
    ensures x in Normalize(c.pendingAdd) <==>
              x in Added(c, s) || x in NewlyIgnored(c, s) || x in Apply(c, s).pendingAdd
    ensures x in Apply(c, s).pendingAdd ==> x !in Added(c, s) && x !in NewlyIgnored(c, s)
    ensures x in Normalize(c.pendingRemove) <==> x in Apply(c, s).pendingRemove || x in Removed(c, s)
    ensures x in Apply(c, s).pendingRemove ==> x !in Removed(c, s)
    ensures x in Added(c, s) ==> x !in Apply(c, s).ignored
  {
    ChosenNames(c, s);
    NormalizeNames(c.pendingAdd);
    NormalizeFixpoint(Normalize(c.pendingAdd));
    NormalizeNames(c.pendingRemove);
    NormalizeFixpoint(Normalize(c.pendingRemove));
    var out := Added(c, s) + NewlyIgnored(c, s);
    SubtractNames(Normalize(c.pendingAdd), out);
    SubtractNames(Normalize(c.pendingRemove), Removed(c, s));
    NormalizeUnion(Added(c, s), NewlyIgnored(c, s));
    SubtractNames(Merge(c.ignored, NewlyIgnored(c, s)), Added(c, s));
  }

  lemma {:induction false} NormalizeUnion(a: seq<string>, b: seq<string>)
    requires Normal(a) && Normal(b)
    ensures forall x :: x in Normalize(a + b) <==> x in a || x in b
  {
    FilterTrimmedFixpoint(a + b);
    UniqNames(a + b);
  }

  lemma {:induction false} NextModelsParts(c: Channel, s: Selection)
    ensures NextModels(c, s) == Without(LocalModels(c), SetOf(Removed(c, s)))
                              + Without(Without(Added(c, s), SetOf(LocalModels(c))), SetOf(Removed(c, s)))
  {
    ChosenNames(c, s);
    LocalIsNormal(c);
    var additions := Without(Added(c, s), SetOf(LocalModels(c)));
    assert Merge(LocalModels(c), Added(c, s)) == LocalModels(c) + additions;
    MergeNames(LocalModels(c), Added(c, s));
    NormalizeFixpoint(LocalModels(c) + additions);
    assert Subtract(Removed(c, s), Added(c, s)) == Removed(c, s) by {
      WithoutNone(Removed(c, s), SetOf(Added(c, s)));
    }
    FilterConcat(LocalModels(c), additions, SetOf(Removed(c, s)));
  }

  /** The new list keeps the surviving models in their old order, followed by the added
      ones in the order of the selection. */
  lemma {:induction false} SurvivorsKeepOrder(c: Channel, s: Selection)
    ensures Normal(NextModels(c, s))
    ensures forall x :: x in NextModels(c, s) <==> (x in LocalModels(c) && x !in Removed(c, s)) || x in Added(c, s)
    ensures Keep(NextModels(c, s), SetOf(LocalModels(c))) == Without(LocalModels(c), SetOf(Removed(c, s)))
    ensures Without(NextModels(c, s), SetOf(LocalModels(c))) == Without(Added(c, s), SetOf(LocalModels(c)))
  {
    ChosenNames(c, s);
    LocalIsNormal(c);
    ApplySelectedNames(LocalModels(c), Added(c, s), Removed(c, s));
    NextModelsParts(c, s);
    var kept := Without(LocalModels(c), SetOf(Removed(c, s)));
    var additions := Without(Added(c, s), SetOf(LocalModels(c)));
    WithoutNames(LocalModels(c), SetOf(Removed(c, s)));
    WithoutNames(Added(c, s), SetOf(LocalModels(c)));
    WithoutNone(additions, SetOf(Removed(c, s)));
    FilterConcat(kept, additions, SetOf(LocalModels(c)));
    KeepAll(kept, SetOf(LocalModels(c)));
    KeepNone(additions, SetOf(LocalModels(c)));
    WithoutAll(kept, SetOf(LocalModels(c)));
    WithoutNone(additions, SetOf(LocalModels(c)));
  }

  /** The list is reported as changed exactly when the set of models changes, although the
      code compares sequences. */
  lemma {:induction false} ChangeIsReal(c: Channel, s: Selection)
    ensures ModelsChanged(c, s) <==> SetOf(LocalModels(c)) != SetOf(NextModels(c, s))
  {
    var local := LocalModels(c);
    if SetOf(local) == SetOf(NextModels(c, s)) {
      ChosenNames(c, s);
      SurvivorsKeepOrder(c, s);
      NextModelsParts(c, s);
      WithoutAll(Added(c, s), SetOf(local));
      forall x | x in local ensures x !in Removed(c, s) {
        assert x in SetOf(NextModels(c, s));
      }
      WithoutNone(local, SetOf(Removed(c, s)));
    }
  }

  // ------------------------------------------------------------- convergence

  /** Nothing is left to do: another check against the same upstream finds nothing. */
  ghost predicate Settled(c: Channel, up: Upstream) {
    PendingAdds(c, up) == [] && PendingRemoves(c, up) == []
  }

  ghost predicate NoCommas(names: seq<string>) {
    forall x :: x in names ==> !HasComma(x)
  }

  /** Every upstream model that is ignored and not served keeps a rule that is not itself
      about to be added. Only a rule with the regex prefix can be both. */
  ghost predicate RulesSurvive(c: Channel, up: Upstream) {
    forall x :: x in Normalize(up.models) && !Covered(x, LocalModels(c), up) && x !in PendingAdds(c, up) ==>
      HiddenWithout(x, Normalize(c.ignored), PendingAdds(c, up), up.regex)
  }

  /** A rule outside `gone` hides the name. */
  ghost predicate HiddenWithout(name: string, rules: seq<string>, gone: seq<string>, regex: Regex) {
    exists i :: 0 <= i < |rules| && rules[i] !in gone && Ignores(rules[i], name, regex)
  }

  /** Applying everything after a check selects all it found. */
  lemma {:induction false} ApplyAllSelectsAll(c: Channel, up: Upstream)
    ensures var s := Selection(Normalize(Detect(c, up).pendingAdd), [], Normalize(Detect(c, up).pendingRemove));
            && Added(Detect(c, up), s) == PendingAdds(c, up) && Removed(Detect(c, up), s) == PendingRemoves(c, up)
            && NewlyIgnored(Detect(c, up), s) == []
  {
    PendingNames(c, up);
    var adds, removes := PendingAdds(c, up), PendingRemoves(c, up);
    NormalizeFixpoint(adds);
    NormalizeFixpoint(removes);
    KeepAll(adds, SetOf(adds));
    KeepAll(removes, SetOf(removes));
    WithoutNone(removes, SetOf(adds));
  }

  /** What the whole cycle leaves behind, as long as nothing added contains a comma. */
  lemma {:induction false} AfterCycle(c: Channel, up: Upstream)
    ensures var after := ApplyAll(Detect(c, up));
            && (forall x :: x in Normalize(after.ignored) <==> x in Normalize(c.ignored) && x !in PendingAdds(c, up))
            && (NoCommas(PendingAdds(c, up)) ==>
                 forall x :: x in LocalModels(after) <==>
                   (x in LocalModels(c) && x !in PendingRemoves(c, up)) || x in PendingAdds(c, up))
  {
    var d := Detect(c, up);
    var s := Selection(Normalize(d.pendingAdd), [], Normalize(d.pendingRemove));
    ApplyAllSelectsAll(c, up);
    SurvivorsKeepOrder(d, s);
    IgnoredAfter(d, s);
    if NoCommas(PendingAdds(c, up)) {
      StoredAsApplied(d, s);
    }
  }

  /** Storing the new list as one string and loading it again loses nothing. */
  lemma {:induction false} StoredAsApplied(c: Channel, s: Selection)
    requires NoCommas(Added(c, s))
    ensures Normalize(GetModels(JoinModels(NextModels(c, s)))) == NextModels(c, s)
  {
    var next := NextModels(c, s);
    SurvivorsKeepOrder(c, s);
    LoadedHasNoCommas(c.models);
    forall i | 0 <= i < |next|
      ensures next[i] != "" && !HasComma(next[i])
    {
      assert next[i] in next;
    }
    StoreAndLoad(next);
    NormalizeFixpoint(next);
  }

  lemma {:induction false} IgnoredAfter(c: Channel, s: Selection)
    requires NewlyIgnored(c, s) == []
    ensures forall x :: x in Normalize(NextIgnored(c, s)) <==> x in Normalize(c.ignored) && x !in Added(c, s)
  {
    ChosenNames(c, s);
    MergeNames(c.ignored, []);
    assert Normalize([]) == [];
    var merged := Merge(c.ignored, []);
    NormalizeFixpoint(merged);
    SubtractNames(merged, Added(c, s));
    NormalizeFixpoint(Subtract(merged, Added(c, s)));
  }

  lemma {:induction false} StillIgnored(x: string, rules: seq<string>, others: seq<string>,
    gone: seq<string>, regex: Regex)
    requires forall r :: r in others <==> r in rules && r !in gone
    ensures IsIgnored(x, others, regex) <==> HiddenWithout(x, rules, gone, regex)
  {
    if IsIgnored(x, others, regex) {
      var j :| 0 <= j < |others| && Ignores(others[j], x, regex);
      assert others[j] in others;
      var i :| 0 <= i < |rules| && rules[i] == others[j];
    }
    if i :| 0 <= i < |rules| && rules[i] !in gone && Ignores(rules[i], x, regex) {
      assert rules[i] in others;
      var j :| 0 <= j < |others| && others[j] == rules[i];
    }
  }

  /** A model whose name contains a comma comes back on every check. */
  lemma {:induction false} CommaNeverSettles(c: Channel, up: Upstream, x: string)
    requires x in PendingAdds(c, up) && HasComma(x)
    ensures x in PendingAdds(ApplyAll(Detect(c, up)), up)
  {
    var after := ApplyAll(Detect(c, up));
    PendingNames(c, up);
    PendingNames(after, up);
    AfterCycle(c, up);
    LoadedHasNoCommas(after.models);
    StillIgnored(x, Normalize(c.ignored), Normalize(after.ignored), PendingAdds(c, up), up.regex);
  }

  lemma {:induction false} CycleSettles(c: Channel, up: Upstream)
    requires NoCommas(PendingAdds(c, up)) && RulesSurvive(c, up)
    ensures Settled(ApplyAll(Detect(c, up)), up)
  {
    var after := ApplyAll(Detect(c, up));
    PendingNames(c, up);
    PendingNames(after, up);
    AfterCycle(c, up);
    forall x ensures x !in PendingAdds(after, up) {
      if x in PendingAdds(after, up) {
        StillIgnored(x, Normalize(c.ignored), Normalize(after.ignored), PendingAdds(c, up), up.regex);
      }
    }
    if PendingAdds(after, up) != [] {
      SomethingIn(PendingAdds(after, up));
    }
    if PendingRemoves(after, up) != [] {
      SomethingIn(PendingRemoves(after, up));
    }
  }

  lemma {:induction false} SomethingIn(s: seq<string>)
    requires s != []
    ensures exists x :: x in s
  {
    assert s[0] in s;
  }

  lemma {:induction false} SettledMeansSafe(c: Channel, up: Upstream)
    requires Settled(ApplyAll(Detect(c, up)), up)
    ensures NoCommas(PendingAdds(c, up)) && RulesSurvive(c, up)
  {
    var after := ApplyAll(Detect(c, up));
    forall x | x in PendingAdds(c, up) ensures !HasComma(x) {
      if HasComma(x) {
        CommaNeverSettles(c, up, x);
      }
    }
    PendingNames(c, up);
    PendingNames(after, up);
    AfterCycle(c, up);
    forall x | x in Normalize(up.models) && !Covered(x, LocalModels(c), up) && x !in PendingAdds(c, up)
      ensures HiddenWithout(x, Normalize(c.ignored), PendingAdds(c, up), up.regex)
    {
      assert !Covered(x, LocalModels(after), up);
      assert x !in PendingAdds(after, up);
      assert IsIgnored(x, Normalize(after.ignored), up.regex);
      StillIgnored(x, Normalize(c.ignored), Normalize(after.ignored), PendingAdds(c, up), up.regex);
    }
  }

  /** Check, apply everything, check again: the second check finds nothing if and only if
      no added name contains a comma and adding models deletes no rule that was the last
      one to hide another model. */
  lemma {:induction false} CycleConvergesExactly(c: Channel, up: Upstream)
    ensures Settled(ApplyAll(Detect(c, up)), up) <==> NoCommas(PendingAdds(c, up)) && RulesSurvive(c, up)
  {
    if NoCommas(PendingAdds(c, up)) && RulesSurvive(c, up) {
      CycleSettles(c, up);
    }
    if Settled(ApplyAll(Detect(c, up)), up) {
      SettledMeansSafe(c, up);
    }
  }

  lemma {:induction false} OneComma(name: string, regex: Regex)
    requires Normal([name]) && HasComma(name)
    ensures var c, up := Channel("", [], [], []), Upstream([name], map[], regex);
            !Settled(ApplyAll(Detect(c, up)), up)
  {
    var c, up := Channel("", [], [], []), Upstream([name], map[], regex);
    NormalizeFixpoint([name]);
    PendingNames(c, up);
    assert name in Normalize(up.models);
    assert LocalModels(c) == [] && Normalize(c.ignored) == [];
    assert name in PendingAdds(c, up);
    CycleConvergesExactly(c, up);
  }

  /** A model whose name contains a comma: added, stored, and found missing again. */
  lemma {:induction false} CommaExample(regex: Regex)
    ensures !Settled(ApplyAll(Detect(Channel("", [], [], []), Upstream(["a,b"], map[], regex))),
                     Upstream(["a,b"], map[], regex))
  {
    var name := "a,b";
    assert name[1] == ',';
    assert IsTrimmed(name);
    OneComma(name, regex);
  }

  /** One rule hides one model, and both are offered. */
  lemma {:induction false} OneRulePending(c: Channel, up: Upstream, rule: string, name: string)
    requires LocalModels(c) == [] && Normalize(c.ignored) == [rule] && Normalize(up.models) == [rule, name]
    requires up.mapping == map[] && Ignores(rule, name, up.regex) && !Ignores(rule, rule, up.regex)
    ensures rule in PendingAdds(c, up) && name !in PendingAdds(c, up)
  {
    var names, rules := [rule, name], [rule];
    PendingNames(c, up);
    assert names[0] == rule && rule in names;
    assert rules[0] == rule && IsIgnored(name, rules, up.regex);
    assert !IsIgnored(rule, rules, up.regex);
  }

  lemma {:induction false} OneRule(rule: string, name: string, regex: Regex)
    requires Normal([rule, name]) && Ignores(rule, name, regex) && !Ignores(rule, rule, regex)
    ensures var c, up := Channel("", [rule], [], []), Upstream([rule, name], map[], regex);
            !Settled(ApplyAll(Detect(c, up)), up)
  {
    var c, up := Channel("", [rule], [], []), Upstream([rule, name], map[], regex);
    assert [rule, name][0] == rule && [rule, name][1] == name;
    NormalizeFixpoint([rule, name]);
    NormalizeFixpoint([rule]);
    OneRulePending(c, up, rule, name);
    OneRuleLost(c, up, rule, name);
  }

  lemma {:induction false} OneRuleLost(c: Channel, up: Upstream, rule: string, name: string)
    requires LocalModels(c) == [] && Normalize(c.ignored) == [rule] && name in Normalize(up.models)
             && up.mapping == map[]
    requires rule in PendingAdds(c, up) && name !in PendingAdds(c, up)
    ensures !Settled(ApplyAll(Detect(c, up)), up)
  {
    assert !HiddenWithout(name, [rule], PendingAdds(c, up), up.regex);
    CycleConvergesExactly(c, up);
  }

  /** An upstream model named like the rule that hides another one: adding it deletes the
      rule, and the other model turns up. */
  lemma {:induction false} RuleExample(regex: Regex)
    requires regex("^a", "abc") && !regex("^a", "regex:^a")
    ensures !Settled(ApplyAll(Detect(Channel("", ["regex:^a"], [], []), Upstream(["regex:^a", "abc"], map[], regex))),
                     Upstream(["regex:^a", "abc"], map[], regex))
  {
    var rule := "regex:^a";
    assert rule[|REGEX_PREFIX|..] == "^a";
    TrimSpaceFixpoint("^a");
    OneRule(rule, "abc", regex);
  }

  /** In particular the cycle converges when no upstream name contains a comma or starts
      like a rule. */
  lemma {:induction false} OrdinaryNamesConverge(c: Channel, up: Upstream)
    requires forall x :: x in Normalize(up.models) ==> !HasComma(x) && !(REGEX_PREFIX <= x)
    ensures Settled(ApplyAll(Detect(c, up)), up)
  {
    PendingNames(c, up);
    forall x | x in Normalize(up.models) && !Covered(x, LocalModels(c), up) && x !in PendingAdds(c, up)
      ensures HiddenWithout(x, Normalize(c.ignored), PendingAdds(c, up), up.regex)
    {
      assert IsIgnored(x, Normalize(c.ignored), up.regex);
      var i :| 0 <= i < |Normalize(c.ignored)| && Ignores(Normalize(c.ignored)[i], x, up.regex);
      assert Normalize(c.ignored)[i] !in PendingAdds(c, up);
    }
    CycleSettles(c, up);
  }

  lemma {:induction false} MergedLength(c: Channel, up: Upstream)
    ensures |Merge(LocalModels(c), PendingAdds(c, up))| == |LocalModels(c)| + |PendingAdds(c, up)|
  {
    PendingNames(c, up);
    LocalIsNormal(c);
    NormalizeFixpoint(PendingAdds(c, up));
    WithoutNone(PendingAdds(c, up), SetOf(LocalModels(c)));
  }

  /** Automatic synchronisation adopts every missing model at once, behind those there are,
      and the next check finds no more exactly when none of them contains a comma. */
  lemma {:induction false} AdoptionConvergesExactly(c: Channel, up: Upstream)
    ensures NoCommas(PendingAdds(c, up)) ==>
      LocalModels(DetectAndAdopt(c, up)) == LocalModels(c) + PendingAdds(c, up)
    ensures DetectAndAdopt(c, up).ignored == c.ignored && DetectAndAdopt(c, up).pendingAdd == []
    ensures DetectAndAdopt(c, up).pendingRemove == PendingRemoves(c, up)
    ensures PendingAdds(DetectAndAdopt(c, up), up) == [] <==> NoCommas(PendingAdds(c, up))
  {
    var adds, after := PendingAdds(c, up), DetectAndAdopt(c, up);
    PendingNames(c, up);
    PendingNames(after, up);
    LocalIsNormal(c);
    NormalizeFixpoint(adds);
    WithoutNone(adds, SetOf(LocalModels(c)));
    var merged := LocalModels(c) + adds;
    assert Merge(LocalModels(c), adds) == merged;
    if NoCommas(adds) {
      if adds != [] {
        LoadedHasNoCommas(c.models);
        MergeNames(LocalModels(c), adds);
        forall i | 0 <= i < |merged| ensures merged[i] != "" && !HasComma(merged[i]) {
          assert merged[i] in merged;
        }
        StoreAndLoad(merged);
        NormalizeFixpoint(merged);
      }
      if PendingAdds(after, up) != [] {
        SomethingIn(PendingAdds(after, up));
      }
    } else {
      var x :| x in adds && HasComma(x);
      LoadedHasNoCommas(after.models);
      assert x in PendingAdds(after, up);
    }
  }

  // --------------------------------------------------------- updating in place

  datatype Fetched = Listed(up: Upstream) | FetchFailed

  /** A channel row and its upstream-update settings, as the two operations change them. */
  class UpstreamChannel {
    var models: string
    var ignored: seq<string>
    var pendingAdd: seq<string>
    var pendingRemove: seq<string>
    var lastCheck: int
    var autoSync: bool

    function View(): Channel
      reads this
    {
      Channel(models, ignored, pendingAdd, pendingRemove)
    }

    /** `checkAndPersistChannelUpstreamModelUpdates`. A recent check is skipped unless it is
        forced; a failed fetch only records the time of the check. */
    method CheckAndPersist(fetched: Fetched, force: bool, allowAutoApply: bool, now: int, minInterval: int)
      returns (modelsChanged: bool, autoAdded: int, ok: bool)
      modifies this
      ensures autoSync == old(autoSync)
      ensures var skipped := !force && old(lastCheck) > 0 && now - old(lastCheck) < minInterval;
              var adopts := allowAutoApply && autoSync;
              && (skipped ==> unchanged(this) && ok)
              && (!skipped ==> lastCheck == now && (ok <==> fetched.Listed?))
              && (!skipped && fetched.FetchFailed? ==> View() == old(View()))
              && (skipped || fetched.FetchFailed? ==> !modelsChanged && autoAdded == 0)
              && (!skipped && fetched.Listed? ==>
                   && View() == (if adopts then DetectAndAdopt(old(View()), fetched.up)
                                      else Detect(old(View()), fetched.up))
                   && autoAdded == (if adopts then |PendingAdds(old(View()), fetched.up)| else 0)
                   && (modelsChanged <==> autoAdded > 0))
    {
      modelsChanged, autoAdded, ok := false, 0, true;
      if !force && lastCheck > 0 && now - lastCheck < minInterval {
        return;
      }
      lastCheck := now;
      if fetched.FetchFailed? {
        ok := false;
        return;
      }
      var before := View();
      MergedLength(before, fetched.up);
      var adds, removes := PendingAdds(before, fetched.up), PendingRemoves(before, fetched.up);
      if allowAutoApply && autoSync && |adds| > 0 {
        var origin := LocalModels(before);
        var merged := MergeModelNames(origin, adds);
        if |merged| > |origin| {
          models := JoinModels(merged);
          autoAdded := |merged| - |origin|;
          modelsChanged := true;
        }
        pendingAdd := [];
      } else {
        pendingAdd := adds;
      }
      pendingRemove := removes;
    }

    /** The ignored names after the selection. */
    static method ComputeIgnored(c: Channel, s: Selection, added: seq<string>, ignore: seq<string>)
      returns (next: seq<string>)
      requires added == Added(c, s) && ignore == NewlyIgnored(c, s)
      ensures next == NextIgnored(c, s)
    {
      next := MergeModelNames(c.ignored, ignore);
      if |added| > 0 {
        next := Subtract(next, added);
      }
    }

    /** `applyChannelUpstreamModelUpdates` */
    method ApplyUpdates(s: Selection, now: int)
      returns (added: seq<string>, removed: seq<string>, remaining: seq<string>,
               remainingRemove: seq<string>, modelsChanged: bool)
      modifies `models, `ignored, `pendingAdd, `pendingRemove, `lastCheck
      ensures View() == Apply(old(View()), s) && lastCheck == now
      ensures added == Added(old(View()), s) && removed == Removed(old(View()), s)
      ensures remaining == pendingAdd && remainingRemove == pendingRemove
      ensures modelsChanged <==> SetOf(LocalModels(old(View()))) != SetOf(NextModels(old(View()), s))
    {
      var before := View();
      ChangeIsReal(before, s);
      added := Added(before, s);
      var ignore := NewlyIgnored(before, s);
      removed := Removed(before, s);

      var next := NextModels(before, s);
      modelsChanged := LocalModels(before) != next;
      if modelsChanged {
        models := JoinModels(next);
      }
      var merged := ComputeIgnored(before, s, added, ignore);
      remaining := Subtract(Normalize(pendingAdd), added + ignore);
      remainingRemove := Subtract(Normalize(pendingRemove), removed);
      ignored, pendingAdd, pendingRemove, lastCheck := merged, remaining, remainingRemove, now;
    }
  }
}
