/** What a check stages and what a selection leaves behind, model by model: who is staged,
    who becomes a rule, and whether an ignored model stays away.
 */
module UpstreamRules {
  import opened ModelNames
  import opened Text
  import opened UpstreamUpdate

  // --------------------------------------------------------------- detecting

  /** What comes after the prefix of a rule. */
  function Expression(rule: string): string
    requires |rule| >= 6
  {
    TrimSpace(rule[6..])
  }

  /** No rule hides the name: none is the name itself, unless it is meant as an expression,
      and no expression matches it. */
  ghost predicate Unhidden(name: string, rules: seq<string>, regex: Regex) {
    && (name in rules ==> "regex:" <= name)
    && (forall rule :: rule in rules && "regex:" <= rule ==> !regex(Expression(rule), name))
  }

  lemma {:induction false} UnhiddenExactly(name: string, rules: seq<string>, regex: Regex)
    ensures Unhidden(name, rules, regex) <==> !IsIgnored(name, rules, regex)
  {
    if IsIgnored(name, rules, regex) {
      var i :| 0 <= i < |rules| && Ignores(rules[i], name, regex);
      assert rules[i] in rules;
    } else {
      forall rule | rule in rules ensures !Ignores(rule, name, regex) {
        var i :| 0 <= i < |rules| && rules[i] == rule;
      }
    }
  }

  /** A model is staged for addition exactly when it is offered, the channel does not have
      it, no redirect leads to it and no rule hides it; for removal exactly when the channel
      has it, it is not offered and it is no alias of a redirect. */
  lemma {:induction false} StagedExactly(c: Channel, up: Upstream, x: string)
    ensures x in PendingAdds(c, up) <==>
              && x in Normalize(up.models) && x !in LocalModels(c)
              && (forall alias :: alias in up.mapping ==> up.mapping[alias] != x)
              && Unhidden(x, Normalize(c.ignored), up.regex)
    ensures x in PendingRemoves(c, up) <==> x in LocalModels(c) && x !in Normalize(up.models) && x !in up.mapping
  {
    PendingNames(c, up);
    UnhiddenExactly(x, Normalize(c.ignored), up.regex);
    assert x in up.mapping.Values <==> exists alias :: alias in up.mapping && up.mapping[alias] == x;
  }

  // ---------------------------------------------------------------- applying

  predicate Chosen(x: string, selected: seq<string>, staged: seq<string>) {
    x in Normalize(selected) && x in Normalize(staged)
  }

  /** After a selection the rules are the old ones and the staged names chosen to be ignored,
      less those chosen to be added. */
  lemma {:induction false} RulesExactly(c: Channel, s: Selection, x: string)
    ensures x in Apply(c, s).ignored <==>
              && (x in Normalize(c.ignored) || Chosen(x, s.ignore, c.pendingAdd))
              && !Chosen(x, s.add, c.pendingAdd)
    ensures Normal(Apply(c, s).ignored)
  {
    ChosenNames(c, s);
    var merged := Merge(c.ignored, NewlyIgnored(c, s));
    MergeNames(c.ignored, NewlyIgnored(c, s));
    NormalizeFixpoint(merged);
    SubtractNames(merged, Added(c, s));
    if |Added(c, s)| > 0 {
      assert Added(c, s)[0] in Added(c, s);
    }
  }

  /** After a selection the channel has the models it had, less the staged removals chosen,
      and the staged additions chosen, as long as no name that is added contains a comma. */
  lemma {:induction false} ModelsExactly(c: Channel, s: Selection, x: string)
    requires NoCommas(Added(c, s))
    ensures x in LocalModels(Apply(c, s)) <==>
              || Chosen(x, s.add, c.pendingAdd)
              || (x in LocalModels(c) && !Chosen(x, s.remove, c.pendingRemove))
  {
    ChosenNames(c, s);
    SurvivorsKeepOrder(c, s);
    if ModelsChanged(c, s) {
      StoredAsApplied(c, s);
    }
  }

  /** What stays staged is what was staged and not chosen. */
  lemma {:induction false} StagedAfter(c: Channel, s: Selection, x: string)
    ensures x in Apply(c, s).pendingAdd <==>
              x in Normalize(c.pendingAdd) && !Chosen(x, s.add, c.pendingAdd) && !Chosen(x, s.ignore, c.pendingAdd)
    ensures x in Apply(c, s).pendingRemove <==>
              && x in Normalize(c.pendingRemove)
              && (Chosen(x, s.remove, c.pendingRemove) ==> Chosen(x, s.add, c.pendingAdd))
  {
    ChosenNames(c, s);
    SelectionSplitsPending(c, s, x);
  }

  // ------------------------------------------------------------ staying away

  predicate IsExpression(name: string) {
    "regex:" <= name
  }

  /** An upstream that offers one name and whose matcher matches nothing. */
  function OnlyOffers(name: string): Upstream {
    Upstream([name], map[], (_, _) => false)
  }

  lemma {:induction false} OfferedAgain(c: Channel, name: string)
    requires IsExpression(name) && name !in LocalModels(c) && Normalize([name]) == [name]
    ensures name in PendingAdds(c, OnlyOffers(name))
  {
    StagedExactly(c, OnlyOffers(name), name);
    assert [name][0] == name;
  }

  /** A staged model that is ignored, and not added, is staged by no later check, whatever
      the upstream offers, if and only if its name does not begin like an expression or the
      channel has it. */
  lemma {:induction false} IgnoredStaysAwayExactly(c: Channel, s: Selection, x: string)
    requires Chosen(x, s.ignore, c.pendingAdd) && !Chosen(x, s.add, c.pendingAdd)
    ensures (forall up :: x !in PendingAdds(Apply(c, s), up)) <==>
              !IsExpression(x) || x in LocalModels(Apply(c, s))
  {
    var after := Apply(c, s);
    if !IsExpression(x) || x in LocalModels(after) {
      RulesExactly(c, s, x);
      NormalizeFixpoint(after.ignored);
      forall up: Upstream ensures x !in PendingAdds(after, up) {
        StagedExactly(after, up, x);
      }
    } else {
      NormalizeNames(s.ignore);
      OneIsNormal(x, Normalize(s.ignore));
      OfferedAgain(after, x);
    }
  }

  lemma {:induction false} NothingNamed(c: Channel)
    requires c.models == ""
    ensures Normalize([]) == [] && LocalModels(c) == []
  {
  }

  lemma {:induction false} ComesBack(c: Channel, s: Selection, name: string)
    requires c == Channel("", [], [name], []) && s == Selection([], [name], [])
    requires Normal([name]) && IsExpression(name)
    ensures name in PendingAdds(Apply(c, s), OnlyOffers(name))
  {
    NormalizeFixpoint([name]);
    NothingNamed(c);
    ChosenNames(c, s);
    ModelsExactly(c, s, name);
    OfferedAgain(Apply(c, s), name);
  }

  /** A model whose name begins like an expression is ignored, offered again and staged. */
  lemma {:induction false} ComesBackExample()
    ensures var name := "regex:a";
            name in PendingAdds(Apply(Channel("", [], [name], []), Selection([], [name], [])), OnlyOffers(name))
  {
    var name := "regex:a";
    assert name[0] == 'r' && name[6] == 'a' && IsTrimmed(name);
    ComesBack(Channel("", [], [name], []), Selection([], [name], []), name);
  }

  lemma {:induction false} OneIsNormal(x: string, names: seq<string>)
    requires Normal(names) && x in names
    ensures Normalize([x]) == [x]
  {
    NormalizeFixpoint([x]);
  }
}
