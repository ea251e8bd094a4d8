/** A channel with several keys: three sparse maps from key index to status, time and
    reason, which have to stay aligned with the keys when some are deleted. The keys
    themselves are one text, written after every deletion and parsed again.

    Saving a channel whose key text is empty does not clear the stored text.
 */
module MultiKey {
  import opened KeyText
  import opened Options
  import opened Separated
  import opened Text

  const ENABLED := 1
  const MANUALLY_DISABLED := 2
  const AUTO_DISABLED := 3

  /** The stored key text and `ChannelInfo`; a nil map reads like an empty one. */
  datatype Row = Row(
    text: string,
    size: int,
    status: map<int, int>,
    time: map<int, int>,
    reason: map<int, string>)

  datatype Action =
    | DisableKey(index: Option<int>)
    | EnableKey(index: Option<int>)
    | EnableAll
    | DisableAll
    | DeleteKey(index: Option<int>)
    | DeleteDisabled

  function Effective(status: map<int, int>, i: int): int {
    if i in status then status[i] else ENABLED
  }

  ghost predicate InRange<T>(m: map<int, T>, n: int) {
    forall i :: i in m ==> 0 <= i < n
  }

  function Keys(r: Row, json: Json): seq<string> {
    GetKeys(r.text, json)
  }

  /** The key count is right and every index belongs to a key. */
  ghost predicate Consistent(r: Row, json: Json) {
    r.size == |Keys(r, json)| && InRange(r.status, r.size) && InRange(r.time, r.size) && InRange(r.reason, r.size)
  }

  // --------------------------------------------------------------- reindexing

  /** The indices below `n` outside `dropped`, in increasing order. */
  function Kept(n: nat, dropped: set<int>): seq<int> {
    if n == 0 then []
    else if n - 1 in dropped then Kept(n - 1, dropped)
    else Kept(n - 1, dropped) + [n - 1]
  }

  ghost predicate Increasing(s: seq<int>) {
    forall i, j :: 0 <= i < j < |s| ==> s[i] < s[j]
  }

  lemma {:induction false} KeptIndices(n: nat, dropped: set<int>)
    ensures Increasing(Kept(n, dropped))
    ensures forall i :: i in Kept(n, dropped) <==> 0 <= i < n && i !in dropped
    ensures forall j :: 0 <= j < |Kept(n, dropped)| ==> 0 <= Kept(n, dropped)[j] < n && Kept(n, dropped)[j] !in dropped
  {
    if n > 0 {
      KeptIndices(n - 1, dropped);
    }
  }

  function PickKeys(keys: seq<string>, kept: seq<int>): seq<string>
    requires forall j :: 0 <= j < |kept| ==> 0 <= kept[j] < |keys|
  {
    seq(|kept|, j requires 0 <= j < |kept| => keys[kept[j]])
  }

  /** The statuses of the kept keys at their new indices; an enabled key needs no entry. */
  function PickStatus(status: map<int, int>, kept: seq<int>): map<int, int> {
    map j | 0 <= j < |kept| && Effective(status, kept[j]) != ENABLED :: Effective(status, kept[j])
  }

  /** The entries of `m` for the kept keys that `only` admits, at their new indices. */
  function Pick<T>(m: map<int, T>, kept: seq<int>, status: map<int, int>, onlyDisabled: bool): map<int, T> {
    map j | 0 <= j < |kept| && kept[j] in m && (onlyDisabled ==> Effective(status, kept[j]) != ENABLED) :: m[kept[j]]
  }

  /** The three maps of a row. */
  datatype Maps = Maps(status: map<int, int>, time: map<int, int>, reason: map<int, string>)

  function PickMaps(m: Maps, kept: seq<int>, onlyDisabled: bool): Maps {
    Maps(PickStatus(m.status, kept), Pick(m.time, kept, m.status, onlyDisabled),
         Pick(m.reason, kept, m.status, onlyDisabled))
  }

  /** `Channel.Update`: an empty text is not stored, the keys are counted in the text, and
      statuses beyond the last key are dropped. Times and reasons are not. */
  function Save(stored: string, r: Row, json: Json): Row {
    var text := if r.text == "" then stored else r.text;
    var size := |CountedKeys(text, json)|;
    r.(text := text, size := size, status := map i | i in r.status && i < size :: r.status[i])
  }

  function AutoDisabled(r: Row, json: Json): set<int> {
    set i | 0 <= i < |Keys(r, json)| && Effective(r.status, i) == AUTO_DISABLED
  }

  predicate Selected(r: Row, index: Option<int>) {
    index.Some? && 0 <= index.value < r.size
  }

  function DisableEnabled(status: map<int, int>, n: int): map<int, int> {
    status + map i | 0 <= i < n && Effective(status, i) == ENABLED :: MANUALLY_DISABLED
  }

  /** The keys that a deletion leaves. */
  function Remaining(r: Row, dropped: set<int>, json: Json): (keys: seq<string>)
    ensures |keys| == |Kept(|Keys(r, json)|, dropped)|
  {
    KeptIndices(|Keys(r, json)|, dropped);
    PickKeys(Keys(r, json), Kept(|Keys(r, json)|, dropped))
  }

  function AfterDelete(r: Row, dropped: set<int>, onlyDisabled: bool, json: Json): Row {
    var kept := Kept(|Keys(r, json)|, dropped);
    Row(Join(Remaining(r, dropped, json), NEWLINE), |kept|, PickStatus(r.status, kept),
        Pick(r.time, kept, r.status, onlyDisabled), Pick(r.reason, kept, r.status, onlyDisabled))
  }

  predicate AnyEnabled(status: map<int, int>, n: int) {
    exists i :: 0 <= i < n && Effective(status, i) == ENABLED
  }

  function Dropped(r: Row, a: Action, json: Json): set<int> {
    match a
    case DeleteKey(index) => if index.Some? then {index.value} else {}
    case DeleteDisabled => AutoDisabled(r, json)
    case _ => {}
  }

  /** Whether an action is carried out. */
  predicate Accepts(r: Row, a: Action, json: Json) {
    match a
    case DisableKey(index) => Selected(r, index)
    case EnableKey(index) => Selected(r, index)
    case EnableAll => true
    case DisableAll => AnyEnabled(r.status, r.size)
    case DeleteKey(index) => Selected(r, index) && |Kept(|Keys(r, json)|, {index.value})| > 0
    case DeleteDisabled => AutoDisabled(r, json) != {}
  }

  /** What an accepted action saves. */
  function Edited(r: Row, a: Action, json: Json): Row {
    match a
    case DisableKey(index) =>
      if index.None? then r else r.(status := r.status[index.value := MANUALLY_DISABLED])
    case EnableKey(index) => if index.None? then r else Cleared(r, index.value)
    case EnableAll => r.(status := map[], time := map[], reason := map[])
    case DisableAll => r.(status := DisableEnabled(r.status, r.size))
    case DeleteKey(index) => AfterDelete(r, Dropped(r, a, json), false, json)
    case DeleteDisabled => AfterDelete(r, AutoDisabled(r, json), true, json)
  }

  /** Nothing is recorded of the key. */
  function Cleared(r: Row, i: int): Row {
    r.(status := r.status - {i}, time := r.time - {i}, reason := r.reason - {i})
  }

  /** The row after an action; a refused action changes nothing. */
  function Act(r: Row, a: Action, json: Json): Row {
    if Accepts(r, a, json) then Save(r.text, Edited(r, a, json), json) else r
  }

  // ----------------------------------------------------------- one deletion

  /** `after` holds the kept keys in order, each with the effective status it had and, if
      it is disabled, with its time and reason. */
  ghost predicate Reindexed(before: Row, kept: seq<int>, after: Row, json: Json) {
    && |Keys(after, json)| == |kept|
    && forall j :: 0 <= j < |kept| ==> KeyMoved(before, kept[j], after, j, json)
  }

  ghost predicate KeyMoved(before: Row, i: int, after: Row, j: int, json: Json) {
    && 0 <= i < |Keys(before, json)| && 0 <= j < |Keys(after, json)| && Keys(after, json)[j] == Keys(before, json)[i]
    && StateMoved(before, i, after, j)
  }

  ghost predicate StateMoved(before: Row, i: int, after: Row, j: int) {
    && Effective(after.status, j) == Effective(before.status, i)
    && (Effective(before.status, i) != ENABLED ==>
         && (j in after.time <==> i in before.time) && (i in before.time ==> after.time[j] == before.time[i])
         && (j in after.reason <==> i in before.reason) && (i in before.reason ==> after.reason[j] == before.reason[i]))
  }

  lemma {:induction false} PickedState(r: Row, dropped: set<int>, onlyDisabled: bool, json: Json, j: nat)
    requires j < |Kept(|Keys(r, json)|, dropped)|
    ensures StateMoved(r, Kept(|Keys(r, json)|, dropped)[j], AfterDelete(r, dropped, onlyDisabled, json), j)
  {
  }

  /** Keys that survive are saved as they were written. */
  lemma {:induction false} SavedAsWritten(r: Row, dropped: set<int>, onlyDisabled: bool, json: Json)
    requires ArraySyntax(json) && Survive(Remaining(r, dropped, json), json)
    ensures var written := AfterDelete(r, dropped, onlyDisabled, json);
            && Save(r.text, written, json) == written && Keys(written, json) == Remaining(r, dropped, json)
            && Consistent(written, json)
  {
    var written := AfterDelete(r, dropped, onlyDisabled, json);
    KeysRoundTripExactly(Remaining(r, dropped, json), json);
    assert Save(r.text, written, json).status == written.status;
  }

  /** The saved deletion when the text is read back as it was written. */
  lemma {:induction false} SurvivorsMove(r: Row, dropped: set<int>, onlyDisabled: bool, json: Json)
    requires ArraySyntax(json) && Survive(Remaining(r, dropped, json), json)
    ensures var after := Save(r.text, AfterDelete(r, dropped, onlyDisabled, json), json);
            && Keys(after, json) == Remaining(r, dropped, json)
            && Reindexed(r, Kept(|Keys(r, json)|, dropped), after, json) && Consistent(after, json)
  {
    SavedAsWritten(r, dropped, onlyDisabled, json);
    WrittenMoves(r, dropped, onlyDisabled, json);
  }

  lemma {:induction false} WrittenMoves(r: Row, dropped: set<int>, onlyDisabled: bool, json: Json)
    requires Keys(AfterDelete(r, dropped, onlyDisabled, json), json) == Remaining(r, dropped, json)
    ensures Reindexed(r, Kept(|Keys(r, json)|, dropped), AfterDelete(r, dropped, onlyDisabled, json), json)
  {
    var kept, written := Kept(|Keys(r, json)|, dropped), AfterDelete(r, dropped, onlyDisabled, json);
    KeptIndices(|Keys(r, json)|, dropped);
    forall j | 0 <= j < |kept|
      ensures KeyMoved(r, kept[j], written, j, json)
    {
      PickedState(r, dropped, onlyDisabled, json, j);
    }
  }

  lemma {:induction false} ReindexedKeys(r: Row, dropped: set<int>, after: Row, json: Json)
    requires Reindexed(r, Kept(|Keys(r, json)|, dropped), after, json)
    ensures Keys(after, json) == Remaining(r, dropped, json)
  {
    var kept := Kept(|Keys(r, json)|, dropped);
    KeptIndices(|Keys(r, json)|, dropped);
    forall j | 0 <= j < |kept|
      ensures Keys(after, json)[j] == Remaining(r, dropped, json)[j]
    {
      assert KeyMoved(r, kept[j], after, j, json);
    }
  }

  lemma {:induction false} KeptFewer(n: nat, dropped: set<int>, i: int)
    requires 0 <= i < n && i in dropped
    ensures |Kept(n, dropped)| < n
  {
    KeptAtMost(n - 1, dropped);
    if i < n - 1 {
      KeptFewer(n - 1, dropped, i);
    }
  }

  lemma {:induction false} KeptAtMost(n: nat, dropped: set<int>)
    ensures |Kept(n, dropped)| <= n
  {
    if n > 0 {
      KeptAtMost(n - 1, dropped);
    }
  }

  lemma {:induction false} KeptAllButOne(n: nat, i: int)
    ensures |Kept(n, {i})| == if 0 <= i < n then n - 1 else n
  {
    if n > 0 {
      KeptAllButOne(n - 1, i);
    }
  }

  /** A deletion moves every other key to its new index with all that belongs to it, and
      leaves a consistent row, if and only if the remaining keys survive being written as
      lines. */
  lemma {:induction false} DeleteExactly(r: Row, dropped: set<int>, i: int, onlyDisabled: bool, json: Json)
    requires ArraySyntax(json) && 0 <= i < |Keys(r, json)| && i in dropped
    ensures var kept := Kept(|Keys(r, json)|, dropped);
            var after := Save(r.text, AfterDelete(r, dropped, onlyDisabled, json), json);
            && (Reindexed(r, kept, after, json) <==> Survive(Remaining(r, dropped, json), json))
            && (Survive(Remaining(r, dropped, json), json) ==> Consistent(after, json))
  {
    var keys, kept := Remaining(r, dropped, json), Kept(|Keys(r, json)|, dropped);
    var after := Save(r.text, AfterDelete(r, dropped, onlyDisabled, json), json);
    KeptFewer(|Keys(r, json)|, dropped, i);
    if Survive(keys, json) {
      SurvivorsMove(r, dropped, onlyDisabled, json);
    } else if Reindexed(r, kept, after, json) {
      ReindexedKeys(r, dropped, after, json);
      assert Join(keys, NEWLINE) != "";
      KeysRoundTripExactly(keys, json);
    }
  }

  /** `delete_key` */
  lemma {:induction false} DeleteKeyExactly(r: Row, index: int, json: Json)
    requires ArraySyntax(json) && Consistent(r, json) && Accepts(r, DeleteKey(Some(index)), json)
    ensures var kept, after := Kept(|Keys(r, json)|, {index}), Act(r, DeleteKey(Some(index)), json);
            && Increasing(kept) && (forall i :: i in kept <==> 0 <= i < |Keys(r, json)| && i != index)
            && (Reindexed(r, kept, after, json) <==> Survive(Remaining(r, {index}, json), json))
            && (Survive(Remaining(r, {index}, json), json) ==> Consistent(after, json))
  {
    KeptIndices(|Keys(r, json)|, {index});
    DeleteExactly(r, {index}, index, false, json);
  }

  /** `delete_disabled_keys`, whose condition includes that a key remains. */
  lemma {:induction false} DeleteDisabledExactly(r: Row, json: Json)
    requires ArraySyntax(json) && Consistent(r, json) && Accepts(r, DeleteDisabled, json)
    ensures var kept, after := Kept(|Keys(r, json)|, AutoDisabled(r, json)), Act(r, DeleteDisabled, json);
            && Increasing(kept)
            && (forall i :: i in kept <==> 0 <= i < |Keys(r, json)| && Effective(r.status, i) != AUTO_DISABLED)
            && (Reindexed(r, kept, after, json) <==> Survive(Remaining(r, AutoDisabled(r, json), json), json))
            && (Survive(Remaining(r, AutoDisabled(r, json), json), json) ==> Consistent(after, json))
  {
    KeptIndices(|Keys(r, json)|, AutoDisabled(r, json));
    var i :| i in AutoDisabled(r, json);
    DeleteExactly(r, AutoDisabled(r, json), i, true, json);
  }

  /** When every key is automatically disabled none is deleted: the text that would be
      written is empty, the stored one stays, and every key is enabled again. */
  lemma {:induction false} DeletingAllRevivesAll(r: Row, json: Json)
    requires Consistent(r, json) && Accepts(r, DeleteDisabled, json)
             && Kept(|Keys(r, json)|, AutoDisabled(r, json)) == []
    ensures var after := Act(r, DeleteDisabled, json);
            after.text == r.text && Keys(after, json) != [] && after.status == map[] && Consistent(after, json)
  {
    var i :| i in AutoDisabled(r, json);
    assert Keys(r, json) != [];
    CountsAgreeExactly(r.text, json);
  }

  // ----------------------------------------------------------- failing inputs

  lemma BlankLines(json: Json)
    ensures GetKeys("a\n\nb", json) == ["a", "", "b"] && CountedKeys("a\n\nb", json) == ["a", "", "b"]
    ensures Join(["", "b"], NEWLINE) == "\nb"
    ensures GetKeys("\nb", json) == ["b"] && CountedKeys("\nb", json) == ["b"]
  {
    var keys := ["a", "", "b"];
    assert keys[1..] == ["", "b"] && keys[1..][1..] == ["b"];
    assert Join(keys, NEWLINE) == "a" + "\n" + ("" + "\n" + "b");
    StoreAndLoadExactly(keys, NEWLINE);
    OrdinaryStart("a", "\n\nb");
    assert "a" + "\n\nb" == "a\n\nb";
    var rest := "\nb";
    assert rest[1..] == "b" && TrimStart(rest, NEWLINE) == "b" && Trim(rest, NEWLINE) == "b";
    SplitWord("b", NEWLINE);
    assert TrimLeft(rest) == "b" && TrimSpace(rest) == "b";
  }

  lemma BlankFirst(r: Row, text: string, time: int, json: Json)
    requires Keys(r, json) == ["a", "", "b"] && CountedKeys(text, json) == GetKeys(text, json) == ["b"]
    requires text == Join(["", "b"], NEWLINE) && text != ""
    requires r.size == 3 && r.status == map[2 := AUTO_DISABLED] && r.time == map[2 := time] && r.reason == map[]
    ensures var after := Act(r, DeleteKey(Some(0)), json);
            && Accepts(r, DeleteKey(Some(0)), json)
            && after.text == text && after.size == 1 && Effective(after.status, 0) == ENABLED && 1 in after.time
  {
    var kept := Kept(3, {0});
    assert kept == [1, 2];
    assert Remaining(r, {0}, json) == ["", "b"];
    var written := AfterDelete(r, {0}, false, json);
    assert written.text == text && 1 in written.time && 0 !in written.status;
  }

  /** Three lines, the middle one blank and the last one disabled with a time: deleting the
      first key writes a text that starts with a blank line, which is read as one key. The
      last key is enabled again and its time stays behind, out of range. */
  lemma BlankKeyExample(json: Json, time: int)
    ensures var r := Row("a\n\nb", 3, map[2 := AUTO_DISABLED], map[2 := time], map[]);
            var after := Act(r, DeleteKey(Some(0)), json);
            && Consistent(r, json) && Accepts(r, DeleteKey(Some(0)), json)
            && Keys(r, json) == ["a", "", "b"] && Keys(after, json) == ["b"]
            && after.size == 1 && Effective(after.status, 0) == ENABLED && 1 in after.time
            && !Consistent(after, json)
  {
    var r := Row("a\n\nb", 3, map[2 := AUTO_DISABLED], map[2 := time], map[]);
    BlankLines(json);
    BlankFirst(r, "\nb", time, json);
  }

  /** An array without elements has no keys, yet saving the channel counts the text as one. */
  lemma EmptyArrayExample(json: Json)
    requires json("[]") == Some([])
    ensures var r := Row("[]", 0, map[], map[], map[]);
            Consistent(r, json) && Act(r, EnableAll, json).size == 1 && !Consistent(Act(r, EnableAll, json), json)
  {
    TrimSpaceFixpoint("[]");
    assert NoSepAtEnds("[]", NEWLINE);
    TrimTrims("[]", NEWLINE);
    SplitWord("[]", NEWLINE);
  }

  // -------------------------------------------------------------- every action

  /** Nothing but a deletion changes the text, and the row stays consistent if and only if
      the text is no empty array. */
  lemma {:induction false} EditExactly(r: Row, a: Action, json: Json)
    requires Consistent(r, json) && Accepts(r, a, json) && !a.DeleteKey? && !a.DeleteDisabled?
    ensures Act(r, a, json).text == r.text
    ensures Consistent(Act(r, a, json), json) <==> !IsEmptyArray(r.text, json)
  {
    CountsAgreeExactly(r.text, json);
  }

  /** What a caller can check before an action: a deletion leaves keys that survive, or none;
      any other action meets no empty array. */
  predicate Safe(r: Row, a: Action, json: Json) {
    Accepts(r, a, json) ==>
      if a.DeleteKey? || a.DeleteDisabled?
      then Remaining(r, Dropped(r, a, json), json) == [] || Survive(Remaining(r, Dropped(r, a, json), json), json)
      else !IsEmptyArray(r.text, json)
  }

  lemma {:induction false} ActConsistent(r: Row, a: Action, json: Json)
    requires ArraySyntax(json) && Consistent(r, json) && Safe(r, a, json)
    ensures Consistent(Act(r, a, json), json)
  {
    if Accepts(r, a, json) {
      match a
      case DeleteKey(index) => DeleteKeyExactly(r, index.value, json);
      case DeleteDisabled =>
        if Remaining(r, AutoDisabled(r, json), json) == [] {
          DeletingAllRevivesAll(r, json);
        } else {
          DeleteDisabledExactly(r, json);
        }
      case _ => EditExactly(r, a, json);
    }
  }

  // -------------------------------------------------------------------- runs

  function Run(r: Row, actions: seq<Action>, json: Json): Row
    decreases |actions|
  {
    if actions == [] then r else Run(Act(r, actions[0], json), actions[1..], json)
  }

  predicate SafeRun(r: Row, actions: seq<Action>, json: Json)
    decreases |actions|
  {
    actions == [] || (Safe(r, actions[0], json) && SafeRun(Act(r, actions[0], json), actions[1..], json))
  }

  /** Where each key of the new list was in the old one. */
  function Origins(r: Row, a: Action, json: Json): seq<int> {
    if Accepts(r, a, json) && (a.DeleteKey? || a.DeleteDisabled?) && Remaining(r, Dropped(r, a, json), json) != []
    then Kept(|Keys(r, json)|, Dropped(r, a, json))
    else seq(|Keys(r, json)|, i => i)
  }

  ghost predicate Traces(from: seq<string>, origins: seq<int>, to: seq<string>) {
    && |origins| == |to| && Increasing(origins)
    && forall j :: 0 <= j < |to| ==> 0 <= origins[j] < |from| && to[j] == from[origins[j]]
  }

  lemma {:induction false} ActTraces(r: Row, a: Action, json: Json)
    requires ArraySyntax(json) && Consistent(r, json) && Safe(r, a, json)
    ensures Traces(Keys(r, json), Origins(r, a, json), Keys(Act(r, a, json), json))
  {
    if Accepts(r, a, json) {
      match a
      case DeleteKey(index) =>
        KeptIndices(|Keys(r, json)|, {index.value});
        SurvivorsMove(r, {index.value}, false, json);
      case DeleteDisabled =>
        KeptIndices(|Keys(r, json)|, AutoDisabled(r, json));
        if Remaining(r, AutoDisabled(r, json), json) == [] {
          DeletingAllRevivesAll(r, json);
        } else {
          SurvivorsMove(r, AutoDisabled(r, json), true, json);
        }
      case _ => EditExactly(r, a, json);
    }
  }

  lemma {:induction false} TracesCompose(a: seq<string>, f: seq<int>, b: seq<string>, g: seq<int>, c: seq<string>)
    returns (h: seq<int>)
    requires Traces(a, f, b) && Traces(b, g, c)
    ensures Traces(a, h, c)
  {
    h := seq(|g|, j requires 0 <= j < |g| => f[g[j]]);
  }

  /** Any safe sequence of actions keeps the row consistent, and the keys that are left are
      some of the original ones in their original order. */
  lemma {:induction false} RunKeepsKeysInOrder(r: Row, actions: seq<Action>, json: Json) returns (origins: seq<int>)
    requires ArraySyntax(json) && Consistent(r, json) && SafeRun(r, actions, json)
    ensures Consistent(Run(r, actions, json), json) && Traces(Keys(r, json), origins, Keys(Run(r, actions, json), json))
    decreases |actions|
  {
    if actions == [] {
      origins := seq(|Keys(r, json)|, i => i);
    } else {
      ActConsistent(r, actions[0], json);
      ActTraces(r, actions[0], json);
      var next := Act(r, actions[0], json);
      var rest := RunKeepsKeysInOrder(next, actions[1..], json);
      origins := TracesCompose(Keys(r, json), Origins(r, actions[0], json), Keys(next, json), rest,
                             Keys(Run(next, actions[1..], json), json));
    }
  }

  lemma {:induction false} OrdinaryActIsSafe(r: Row, a: Action, json: Json)
    requires ArraySyntax(json) && Consistent(r, json) && AllOrdinary(Keys(r, json)) && !IsEmptyArray(r.text, json)
    ensures Safe(r, a, json) && AllOrdinary(Keys(Act(r, a, json), json)) && !IsEmptyArray(Act(r, a, json).text, json)
  {
    KeptIndices(|Keys(r, json)|, Dropped(r, a, json));
    var remaining := Remaining(r, Dropped(r, a, json), json);
    if remaining != [] {
      OrdinarySurvive(remaining, json);
    }
    ActTraces(r, a, json);
    if Accepts(r, a, json) && a.DeleteKey? {
      SurvivorsMove(r, Dropped(r, a, json), false, json);
    } else if Accepts(r, a, json) && a.DeleteDisabled? && remaining != [] {
      SurvivorsMove(r, Dropped(r, a, json), true, json);
    } else if Accepts(r, a, json) && a.DeleteDisabled? {
      DeletingAllRevivesAll(r, json);
    } else if Accepts(r, a, json) {
      EditExactly(r, a, json);
    }
  }

  /** With ordinary keys every sequence of actions is safe. */
  lemma {:induction false} OrdinaryRunIsSafe(r: Row, actions: seq<Action>, json: Json)
    requires ArraySyntax(json) && Consistent(r, json) && AllOrdinary(Keys(r, json)) && !IsEmptyArray(r.text, json)
    ensures SafeRun(r, actions, json)
    decreases |actions|
  {
    if actions != [] {
      OrdinaryActIsSafe(r, actions[0], json);
      ActConsistent(r, actions[0], json);
      OrdinaryRunIsSafe(Act(r, actions[0], json), actions[1..], json);
    }
  }

  // ---------------------------------------------------------- updating in place

  function CountEnabled(status: map<int, int>, n: int): nat {
    if n <= 0 then 0 else CountEnabled(status, n - 1) + if Effective(status, n - 1) == ENABLED then 1 else 0
  }

  lemma {:induction false} CountFindsAny(status: map<int, int>, n: int)
    ensures CountEnabled(status, n) > 0 <==> AnyEnabled(status, n)
  {
    if n > 0 {
      CountFindsAny(status, n - 1);
    }
  }

  lemma {:induction false} DisableStep(status: map<int, int>, i: int)
    requires 0 <= i
    ensures Effective(DisableEnabled(status, i), i) == Effective(status, i)
    ensures DisableEnabled(status, i + 1)
         == if Effective(status, i) == ENABLED then DisableEnabled(status, i)[i := MANUALLY_DISABLED]
            else DisableEnabled(status, i)
  {
  }

  /** An entry that is wanted, moved to its new index. */
  function Placed<T>(m: map<int, T>, moved: map<int, T>, i: int, newIndex: int, wanted: bool): map<int, T> {
    if i in m && wanted then moved[newIndex := m[i]] else moved
  }

  lemma {:induction false} PickStep<T>(m: map<int, T>, kept: seq<int>, i: int,
                                     status: map<int, int>, onlyDisabled: bool)
    ensures Pick(m, kept + [i], status, onlyDisabled)
         == Placed(m, Pick(m, kept, status, onlyDisabled), i, |kept|, onlyDisabled ==> Effective(status, i) != ENABLED)
  {
    assert forall j :: 0 <= j < |kept| ==> (kept + [i])[j] == kept[j];
  }

  function PlacedStatus(status: map<int, int>, moved: map<int, int>, i: int, newIndex: int): map<int, int> {
    if Effective(status, i) != ENABLED then moved[newIndex := Effective(status, i)] else moved
  }

  lemma {:induction false} PickStatusStep(status: map<int, int>, kept: seq<int>, i: int)
    ensures PickStatus(status, kept + [i]) == PlacedStatus(status, PickStatus(status, kept), i, |kept|)
  {
    assert forall j :: 0 <= j < |kept| ==> (kept + [i])[j] == kept[j];
  }

  /** The loop of `disable_all_keys`. */
  method DisableListed(listed: map<int, int>, n: int) returns (edited: map<int, int>, disabledCount: int)
    ensures edited == DisableEnabled(listed, n) && disabledCount == CountEnabled(listed, n)
  {
    disabledCount, edited := 0, listed;
    assert DisableEnabled(listed, 0) == listed && (n < 0 ==> DisableEnabled(listed, n) == listed);
    var i := 0;
    while i < n
      invariant 0 <= i && (i <= n || i == 0)
      invariant edited == DisableEnabled(listed, i) && disabledCount == CountEnabled(listed, i)
      decreases n - i
    {
      DisableStep(listed, i);
      if Effective(edited, i) == ENABLED {
        edited := edited[i := MANUALLY_DISABLED];
        disabledCount := disabledCount + 1;
      }
      i := i + 1;
    }
  }

  /** The entries of one kept key, moved to its new index. */
  function Moved(maps: Maps, moved: Maps, i: int, newIndex: int, onlyDisabled: bool): Maps {
    var wanted := onlyDisabled ==> Effective(maps.status, i) != ENABLED;
    Maps(PlacedStatus(maps.status, moved.status, i, newIndex),
         Placed(maps.time, moved.time, i, newIndex, wanted),
         Placed(maps.reason, moved.reason, i, newIndex, wanted))
  }

  lemma {:induction false} PickMapsStep(maps: Maps, kept: seq<int>, i: int, onlyDisabled: bool)
    ensures PickMaps(maps, kept + [i], onlyDisabled)
         == Moved(maps, PickMaps(maps, kept, onlyDisabled), i, |kept|, onlyDisabled)
  {
    PickStatusStep(maps.status, kept, i);
    PickStep(maps.time, kept, i, maps.status, onlyDisabled);
    PickStep(maps.reason, kept, i, maps.status, onlyDisabled);
  }

  /** These are the kept keys, in order. */
  ghost predicate Copied(keys: seq<string>, kept: seq<int>, remaining: seq<string>) {
    && |remaining| == |kept|
    && forall j :: 0 <= j < |kept| ==> 0 <= kept[j] < |keys| && remaining[j] == keys[kept[j]]
  }

  lemma {:induction false} CopyOne(keys: seq<string>, kept: seq<int>, remaining: seq<string>, i: nat)
    requires i < |keys| && Copied(keys, kept, remaining)
    ensures Copied(keys, kept + [i], remaining + [keys[i]])
  {
  }

  /** The rebuilding loop of both delete actions: the kept keys and their entries at the new
      indices. */
  method Rebuild(keys: seq<string>, maps: Maps, dropped: set<int>, onlyDisabled: bool)
    returns (remaining: seq<string>, moved: Maps)
    ensures var kept := Kept(|keys|, dropped);
            Copied(keys, kept, remaining) && moved == PickMaps(maps, kept, onlyDisabled)
  {
    remaining, moved := [], Maps(map[], map[], map[]);
    for i := 0 to |keys|
      invariant Copied(keys, Kept(i, dropped), remaining)
      invariant moved == PickMaps(maps, Kept(i, dropped), onlyDisabled)
    {
      if i !in dropped {
        CopyOne(keys, Kept(i, dropped), remaining, i);
        PickMapsStep(maps, Kept(i, dropped), i, onlyDisabled);
        moved := Moved(maps, moved, i, |remaining|, onlyDisabled);
        remaining := remaining + [keys[i]];
      }
    }
  }

  /** The rebuilt keys and maps make up the row after the deletion. */
  lemma {:induction false} RebuiltRow(
    r: Row, dropped: set<int>, onlyDisabled: bool, remaining: seq<string>, moved: Maps, json: Json)
    requires Copied(Keys(r, json), Kept(|Keys(r, json)|, dropped), remaining)
    requires moved == PickMaps(Maps(r.status, r.time, r.reason), Kept(|Keys(r, json)|, dropped), onlyDisabled)
    ensures remaining == Remaining(r, dropped, json)
    ensures Row(Join(remaining, NEWLINE), |remaining|, moved.status, moved.time, moved.reason)
         == AfterDelete(r, dropped, onlyDisabled, json)
  {
  }

  /** The channel that `ManageMultiKeys` loads, edits and saves. */
  class MultiKeyChannel {
    const json: Json
    var text: string
    var size: int
    var status: map<int, int>
    var time: map<int, int>
    var reason: map<int, string>

    function View(): Row
      reads this
    {
      Row(text, size, status, time, reason)
    }

    /** Counts the keys of the text, or of the stored one if there is none to store. */
    method Update(stored: string)
      modifies this
      ensures View() == Save(stored, old(View()), json)
    {
      if text == "" {
        text := stored;
      }
      size := |CountedKeys(text, json)|;
      status := map i | i in status && i < size :: status[i];
    }

    method DisableKey(index: Option<int>) returns (ok: bool)
      modifies this
      ensures ok <==> Accepts(old(View()), Action.DisableKey(index), json)
      ensures View() == Act(old(View()), Action.DisableKey(index), json)
    {
      ok := index.Some? && 0 <= index.value < size;
      if ok {
        status := status[index.value := MANUALLY_DISABLED];
        Update(text);
      }
    }

    method EnableKey(index: Option<int>) returns (ok: bool)
      modifies this
      ensures ok <==> Accepts(old(View()), Action.EnableKey(index), json)
      ensures View() == Act(old(View()), Action.EnableKey(index), json)
    {
      ok := index.Some? && 0 <= index.value < size;
      if ok {
        status, time, reason := status - {index.value}, time - {index.value}, reason - {index.value};
        Update(text);
      }
    }

    method EnableAllKeys() returns (enabledCount: int)
      modifies this
      ensures View() == Act(old(View()), EnableAll, json) && enabledCount == |old(status)|
    {
      enabledCount := |status|;
      status, time, reason := map[], map[], map[];
      Update(text);
    }

    method DisableAllKeys() returns (disabledCount: int)
      modifies this
      ensures disabledCount == CountEnabled(old(status), old(size))
      ensures disabledCount > 0 <==> Accepts(old(View()), DisableAll, json)
      ensures View() == Act(old(View()), DisableAll, json)
    {
      var edited;
      edited, disabledCount := DisableListed(status, size);
      CountFindsAny(status, size);
      if disabledCount > 0 {
        status := edited;
        Update(text);
      }
    }

    method DeleteKey(index: Option<int>) returns (ok: bool)
      modifies this
      ensures ok <==> Accepts(old(View()), Action.DeleteKey(index), json)
      ensures View() == Act(old(View()), Action.DeleteKey(index), json)
    {
      if index.None? || index.value < 0 || index.value >= size {
        return false;
      }
      var keys := GetKeys(text, json);
      var remaining, moved := Rebuild(keys, Maps(status, time, reason), {index.value}, false);
      RebuiltRow(View(), {index.value}, false, remaining, moved, json);
      ok := |remaining| > 0;
      if ok {
        var stored := text;
        text, size := Join(remaining, NEWLINE), |remaining|;
        status, time, reason := moved.status, moved.time, moved.reason;
        Update(stored);
      }
    }

    method DeleteDisabledKeys() returns (deletedCount: int)
      modifies this
      ensures deletedCount == |AutoDisabled(old(View()), json)|
      ensures View() == Act(old(View()), DeleteDisabled, json)
    {
      var dropped := AutoDisabled(View(), json);
      var keys := GetKeys(text, json);
      var remaining, moved := Rebuild(keys, Maps(status, time, reason), dropped, true);
      RebuiltRow(View(), dropped, true, remaining, moved, json);
      deletedCount := |dropped|;
      if deletedCount > 0 {
        var stored := text;
        text, size := Join(remaining, NEWLINE), |remaining|;
        status, time, reason := moved.status, moved.time, moved.reason;
        Update(stored);
      }
    }
  }
}
