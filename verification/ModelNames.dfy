/** Ordered, duplicate-free lists of model names, and their storage as one string joined
    by commas.
 */
module ModelNames {
  import opened Options
  import opened Separated
  import opened Text

  /** What every list operation returns: trimmed, non-empty names without duplicates. */
  ghost predicate Normal(s: seq<string>) {
    Distinct(s) && forall i :: 0 <= i < |s| ==> s[i] != "" && IsTrimmed(s[i])
  }

  function SetOf(s: seq<string>): (r: set<string>)
    ensures forall x :: x in r <==> x in s
  {
    set x | x in s
  }

  function FilterTrimmed(models: seq<string>): seq<string> {
    if models == [] then []
    else
      var trimmed := TrimSpace(models[|models| - 1]);
      FilterTrimmed(models[..|models| - 1]) + (if trimmed != "" then [trimmed] else [])
  }

  function Uniq(s: seq<string>): seq<string> {
    if s == [] then []
    else
      var front := Uniq(s[..|s| - 1]);
      if s[|s| - 1] in front then front else front + [s[|s| - 1]]
  }

  /** `normalizeModelNames` */
  function Normalize(models: seq<string>): seq<string> {
    Uniq(FilterTrimmed(models))
  }

  function Keep(s: seq<string>, names: set<string>): seq<string> {
    if s == [] then []
    else Keep(s[..|s| - 1], names) + (if s[|s| - 1] in names then [s[|s| - 1]] else [])
  }

  function Without(s: seq<string>, names: set<string>): seq<string> {
    if s == [] then []
    else Without(s[..|s| - 1], names) + (if s[|s| - 1] in names then [] else [s[|s| - 1]])
  }

  // ------------------------------------------------------------------ lemmas

  lemma {:induction false} FilterTrimmedNames(models: seq<string>)
    ensures forall i :: 0 <= i < |FilterTrimmed(models)| ==>
      FilterTrimmed(models)[i] != "" && IsTrimmed(FilterTrimmed(models)[i])
    ensures forall x :: x in FilterTrimmed(models) <==>
      x != "" && exists i :: 0 <= i < |models| && TrimSpace(models[i]) == x
  {
    if models != [] {
      var n := |models| - 1;
      FilterTrimmedNames(models[..n]);
      TrimSpaceTrims(models[n]);
      forall x | x != "" && exists i :: 0 <= i < |models| && TrimSpace(models[i]) == x
        ensures x in FilterTrimmed(models) {
        var i :| 0 <= i < |models| && TrimSpace(models[i]) == x;
        if i < n {
          assert models[..n][i] == models[i];
        }
      }
      forall x | x in FilterTrimmed(models[..n]) ensures exists i :: 0 <= i < |models| && TrimSpace(models[i]) == x {
        var i :| 0 <= i < n && TrimSpace(models[..n][i]) == x;
        assert TrimSpace(models[i]) == x;
      }
    }
  }

  lemma {:induction false} UniqNames(s: seq<string>)
    ensures Distinct(Uniq(s)) && forall x :: x in Uniq(s) <==> x in s
  {
    if s != [] {
      UniqNames(s[..|s| - 1]);
      assert s == s[..|s| - 1] + [s[|s| - 1]];
    }
  }

  /** Normalising yields a normal list of exactly the trimmed non-empty names. */
  lemma {:induction false} NormalizeNames(models: seq<string>)
    ensures Normal(Normalize(models))
    ensures forall x :: x in Normalize(models) <==>
      x != "" && exists i :: 0 <= i < |models| && TrimSpace(models[i]) == x
  {
    FilterTrimmedNames(models);
    UniqNames(FilterTrimmed(models));
    var r := Normalize(models);
    forall i | 0 <= i < |r| ensures r[i] != "" && IsTrimmed(r[i]) {
      assert r[i] in r;
    }
  }

  /** Names are taken in their order, trimmed, and once: a name is added behind the others
      unless it is blank or there already. */
  lemma {:induction false} NormalizeInOrder(models: seq<string>, name: string)
    ensures Normalize([]) == []
    ensures Normalize(models + [name])
         == if TrimSpace(name) == "" || TrimSpace(name) in Normalize(models) then Normalize(models)
            else Normalize(models) + [TrimSpace(name)]
  {
    var all := models + [name];
    assert all[..|all| - 1] == models && all[|all| - 1] == name;
    if TrimSpace(name) == "" {
      assert FilterTrimmed(all) == FilterTrimmed(models);
    } else {
      var filtered := FilterTrimmed(all);
      assert filtered == FilterTrimmed(models) + [TrimSpace(name)];
      assert filtered[..|filtered| - 1] == FilterTrimmed(models);
    }
  }

  lemma {:induction false} FilterTrimmedFixpoint(s: seq<string>)
    requires forall i :: 0 <= i < |s| ==> s[i] != "" && IsTrimmed(s[i])
    ensures FilterTrimmed(s) == s
  {
    if s != [] {
      FilterTrimmedFixpoint(s[..|s| - 1]);
      TrimSpaceFixpoint(s[|s| - 1]);
    }
  }

  lemma {:induction false} UniqFixpoint(s: seq<string>)
    requires Distinct(s)
    ensures Uniq(s) == s
  {
    if s != [] {
      UniqFixpoint(s[..|s| - 1]);
    }
  }

  /** A normal list is left alone. */
  lemma {:induction false} NormalizeFixpoint(s: seq<string>)
    requires Normal(s)
    ensures Normalize(s) == s
  {
    FilterTrimmedFixpoint(s);
    UniqFixpoint(s);
  }

  lemma {:induction false} NormalFront(s: seq<string>)
    requires Normal(s) && s != []
    ensures Normal(s[..|s| - 1]) && s[|s| - 1] !in s[..|s| - 1] && s[|s| - 1] != "" && IsTrimmed(s[|s| - 1])
  {
  }

  lemma {:induction false} NormalSnoc(s: seq<string>, x: string)
    requires Normal(s) && x !in s && x != "" && IsTrimmed(x)
    ensures Normal(s + [x])
  {
  }

  lemma {:induction false} KeepNames(s: seq<string>, names: set<string>)
    ensures forall x :: x in Keep(s, names) <==> x in s && x in names
    ensures Normal(s) ==> Normal(Keep(s, names))
    ensures |Keep(s, names)| <= |s|
  {
    if s != [] {
      var front, last := s[..|s| - 1], s[|s| - 1];
      assert s == front + [last];
      KeepNames(front, names);
      if Normal(s) {
        NormalFront(s);
        if last in names {
          NormalSnoc(Keep(front, names), last);
        }
      }
    }
  }

  lemma {:induction false} WithoutNames(s: seq<string>, names: set<string>)
    ensures forall x :: x in Without(s, names) <==> x in s && x !in names
    ensures Normal(s) ==> Normal(Without(s, names))
    ensures |Without(s, names)| <= |s|
  {
    if s != [] {
      var front, last := s[..|s| - 1], s[|s| - 1];
      assert s == front + [last];
      WithoutNames(front, names);
      if Normal(s) {
        NormalFront(s);
        if last !in names {
          NormalSnoc(Without(front, names), last);
        }
      }
    }
  }

  lemma {:induction false} KeepAll(s: seq<string>, names: set<string>)
    requires forall x :: x in s ==> x in names
    ensures Keep(s, names) == s
  {
    if s != [] {
      assert s[|s| - 1] in s;
      KeepAll(s[..|s| - 1], names);
    }
  }

  lemma {:induction false} WithoutNone(s: seq<string>, names: set<string>)
    requires forall x :: x in s ==> x !in names
    ensures Without(s, names) == s
  {
    if s != [] {
      assert s[|s| - 1] in s;
      WithoutNone(s[..|s| - 1], names);
    }
  }

  lemma {:induction false} WithoutAll(s: seq<string>, names: set<string>)
    requires forall x :: x in s ==> x in names
    ensures Without(s, names) == []
  {
    if s != [] {
      assert s[|s| - 1] in s;
      WithoutAll(s[..|s| - 1], names);
    }
  }

  lemma {:induction false} FilterConcat(a: seq<string>, b: seq<string>, names: set<string>)
    ensures Keep(a + b, names) == Keep(a, names) + Keep(b, names)
    ensures Without(a + b, names) == Without(a, names) + Without(b, names)
  {
    if b == [] {
      assert a + b == a;
    } else {
      assert (a + b)[..|a + b| - 1] == a + b[..|b| - 1];
      FilterConcat(a, b[..|b| - 1], names);
    }
  }

  lemma {:induction false} KeepNone(s: seq<string>, names: set<string>)
    requires forall x :: x in s ==> x !in names
    ensures Keep(s, names) == []
  {
    if s != [] {
      assert s[|s| - 1] in s;
      KeepNone(s[..|s| - 1], names);
    }
  }

  lemma {:induction false} NormalConcat(a: seq<string>, b: seq<string>)
    requires Normal(a) && Normal(b) && forall x :: x in a ==> x !in b
    ensures Normal(a + b)
  {
    forall i, j | 0 <= i < j < |a + b| ensures (a + b)[i] != (a + b)[j] {
      if i < |a| <= j {
        assert (a + b)[i] in a && (a + b)[j] in b;
      }
    }
  }

  // ------------------------------------------------------------ operations

  /** `mergeModelNames`: the base, then what is new in the second list. */
  function Merge(base: seq<string>, appended: seq<string>): seq<string> {
    Normalize(base) + Without(Normalize(appended), SetOf(Normalize(base)))
  }

  /** `subtractModelNames` */
  function Subtract(base: seq<string>, removed: seq<string>): seq<string> {
    Without(Normalize(base), SetOf(Normalize(removed)))
  }

  /** `intersectModelNames` */
  function Intersect(base: seq<string>, allowed: seq<string>): seq<string> {
    Keep(Normalize(base), SetOf(Normalize(allowed)))
  }

  lemma {:induction false} MergeNames(base: seq<string>, appended: seq<string>)
    ensures Normal(Merge(base, appended))
    ensures forall x :: x in Merge(base, appended) <==> x in Normalize(base) || x in Normalize(appended)
    ensures Normalize(base) <= Merge(base, appended)
  {
    NormalizeNames(base);
    NormalizeNames(appended);
    WithoutNames(Normalize(appended), SetOf(Normalize(base)));
    NormalConcat(Normalize(base), Without(Normalize(appended), SetOf(Normalize(base))));
  }

  lemma {:induction false} MergeStep(a: seq<string>, b: seq<string>, i: nat)
    requires Distinct(b) && i < |b|
    ensures Without(b[..i + 1], SetOf(a)) == Without(b[..i], SetOf(a)) + (if b[i] in a then [] else [b[i]])
    ensures b[i] in a + Without(b[..i], SetOf(a)) <==> b[i] in a
  {
    assert b[..i + 1][..i] == b[..i];
    WithoutNames(b[..i], SetOf(a));
    assert b[i] !in b[..i];
  }

  /** The append loop of `mergeModelNames` with its set of names seen. */
  method MergeModelNames(base: seq<string>, appended: seq<string>) returns (merged: seq<string>)
    ensures merged == Merge(base, appended)
  {
    var a, b := Normalize(base), Normalize(appended);
    merged := a;
    var seen := SetOf(merged);
    NormalizeNames(appended);
    assert b[..0] == [];
    for i := 0 to |b|
      invariant merged == a + Without(b[..i], SetOf(a))
      invariant forall x :: x in seen <==> x in merged
    {
      MergeStep(a, b, i);
      if b[i] !in seen {
        seen := seen + {b[i]};
        assert merged + [b[i]] == a + (Without(b[..i], SetOf(a)) + [b[i]]);
        merged := merged + [b[i]];
      }
    }
    assert b[..|b|] == b;
  }

  // ------------------------------------------------------- comma-joined lists

  predicate HasComma(s: string) { ',' in s }

  function JoinModels(models: seq<string>): string {
    Join(models, ',')
  }

  /** `GetModels`: the list stored in a channel's models string. */
  function GetModels(models: string): seq<string> {
    Load(models, ',')
  }

  ghost predicate Plain(models: seq<string>) {
    forall i :: 0 <= i < |models| ==> models[i] != "" && !HasComma(models[i])
  }

  /** Storing names without commas and reading them back gives the same list. */
  lemma {:induction false} StoreAndLoad(models: seq<string>)
    requires Plain(models)
    ensures GetModels(JoinModels(models)) == models
  {
    if models != [] {
      StoreAndLoadExactly(models, ',');
    }
  }

  lemma {:induction false} TrimKeepsOutCommas(s: string)
    ensures !HasComma(s) ==> !HasComma(TrimSpace(s))
  {
    TrimLeftPart(s);
    TrimRightPart(TrimLeft(s));
  }

  /** Whatever is stored, no name read back contains a comma. */
  lemma {:induction false} LoadedHasNoCommas(models: string)
    ensures forall x :: x in Normalize(GetModels(models)) ==> !HasComma(x)
  {
    var raw := GetModels(models);
    NormalizeNames(raw);
    LoadedHasNoSep(models, ',');
    forall x | x in Normalize(raw)
      ensures !HasComma(x)
    {
      var i :| 0 <= i < |raw| && TrimSpace(raw[i]) == x;
      assert raw[i] in raw;
      TrimKeepsOutCommas(raw[i]);
    }
  }
}
