/** What the actions on a channel with several keys do, key by key. */
module MultiKeyEdits {
  import opened KeyText
  import opened MultiKey
  import opened Options

  /** What is recorded of a key besides its status. */
  predicate SameRecords(r: Row, after: Row, j: int) {
    && (j in after.time <==> j in r.time) && (j in r.time ==> after.time[j] == r.time[j])
    && (j in after.reason <==> j in r.reason) && (j in r.reason ==> after.reason[j] == r.reason[j])
  }

  predicate SameState(r: Row, after: Row, j: int) {
    Effective(after.status, j) == Effective(r.status, j) && SameRecords(r, after, j)
  }

  predicate Unrecorded(r: Row, j: int) {
    Effective(r.status, j) == ENABLED && j !in r.time && j !in r.reason
  }

  predicate IsKey(r: Row, j: int, json: Json) {
    0 <= j < |Keys(r, json)|
  }

  /** The keys and their number are as before. */
  predicate SameKeys(r: Row, after: Row, json: Json) {
    after.text == r.text && Keys(after, json) == Keys(r, json) && after.size == r.size
  }

  /** An action is refused for a key that there is not, when it would delete the last key, and
      when there is nothing to disable or to delete. */
  lemma {:induction false} AcceptedExactly(r: Row, a: Action, json: Json)
    requires Consistent(r, json)
    ensures Accepts(r, a, json) <==>
      match a
      case DisableKey(index) => index.Some? && IsKey(r, index.value, json)
      case EnableKey(index) => index.Some? && IsKey(r, index.value, json)
      case EnableAll => true
      case DisableAll => exists j :: IsKey(r, j, json) && Effective(r.status, j) == ENABLED
      case DeleteKey(index) => index.Some? && IsKey(r, index.value, json) && |Keys(r, json)| > 1
      case DeleteDisabled => exists j :: IsKey(r, j, json) && Effective(r.status, j) == AUTO_DISABLED
    ensures !Accepts(r, a, json) ==> Act(r, a, json) == r
  {
    match a
    case DisableAll =>
      if j :| IsKey(r, j, json) && Effective(r.status, j) == ENABLED {
        assert AnyEnabled(r.status, r.size);
      }
      if AnyEnabled(r.status, r.size) {
        var j :| 0 <= j < r.size && Effective(r.status, j) == ENABLED;
        assert IsKey(r, j, json);
      }
    case DeleteKey(index) =>
      if index.Some? {
        KeptAllButOne(|Keys(r, json)|, index.value);
      }
    case DeleteDisabled =>
      if j :| IsKey(r, j, json) && Effective(r.status, j) == AUTO_DISABLED {
        assert j in AutoDisabled(r, json);
      }
      if AutoDisabled(r, json) != {} {
        var j :| j in AutoDisabled(r, json);
        assert IsKey(r, j, json);
      }
    case _ =>
  }

  /** After any action that is carried out, on any row, no status is left for a key beyond the
      last that the text counts. */
  lemma {:induction false} StatusesFit(r: Row, a: Action, i: int, json: Json)
    requires Accepts(r, a, json) && i in Act(r, a, json).status
    ensures i < Act(r, a, json).size == |CountedKeys(Act(r, a, json).text, json)|
  {
  }

  /** Nothing that an edit writes is out of range, so saving keeps all of it. */
  lemma {:induction false} EditSaved(r: Row, a: Action, json: Json)
    requires Consistent(r, json) && !IsEmptyArray(r.text, json) && Accepts(r, a, json)
    requires !a.DeleteKey? && !a.DeleteDisabled?
    ensures Act(r, a, json).status == Edited(r, a, json).status
    ensures Act(r, a, json).time == Edited(r, a, json).time && Act(r, a, json).reason == Edited(r, a, json).reason
    ensures SameKeys(r, Act(r, a, json), json)
  {
    CountsAgreeExactly(r.text, json);
    assert InRange(Edited(r, a, json).status, r.size);
  }

  /** Disabling a key makes it manually disabled, and touches nothing else. */
  lemma {:induction false} DisableKeyExactly(r: Row, i: int, j: int, json: Json)
    requires Consistent(r, json) && IsKey(r, i, json)
    ensures var after := Act(r, DisableKey(Some(i)), json);
            && SameKeys(r, after, json) && Effective(after.status, i) == MANUALLY_DISABLED
            && SameRecords(r, after, j) && (j != i ==> SameState(r, after, j))
  {
    EditSaved(r, DisableKey(Some(i)), json);
  }

  /** Enabling a key forgets its status, time and reason, and touches nothing else. */
  lemma {:induction false} EnableKeyExactly(r: Row, i: int, j: int, json: Json)
    requires Consistent(r, json) && IsKey(r, i, json)
    ensures var after := Act(r, EnableKey(Some(i)), json);
            SameKeys(r, after, json) && Unrecorded(after, i) && (j != i ==> SameState(r, after, j))
  {
    EditSaved(r, EnableKey(Some(i)), json);
  }

  /** Disabling all keys disables the enabled ones by hand; the others stay as they are. */
  lemma {:induction false} DisableAllExactly(r: Row, j: int, json: Json)
    requires Consistent(r, json) && IsKey(r, j, json)
    ensures var after := Act(r, DisableAll, json);
            && SameKeys(r, after, json) && SameRecords(r, after, j)
            && Effective(after.status, j)
               == if Effective(r.status, j) == ENABLED then MANUALLY_DISABLED else Effective(r.status, j)
  {
    AcceptedExactly(r, DisableAll, json);
    if Accepts(r, DisableAll, json) {
      EditSaved(r, DisableAll, json);
    }
  }

  /** Enabling all keys forgets everything that is recorded of any, on every row. */
  lemma EnableAllExactly(r: Row, j: int, json: Json)
    ensures var after := Act(r, EnableAll, json);
            after.text == r.text && Keys(after, json) == Keys(r, json) && Unrecorded(after, j)
  {
  }

  /** Disabling a key and enabling it again changes nothing but that its time and reason are
      forgotten. */
  lemma {:induction false} EnableUndoesDisable(r: Row, i: int, json: Json)
    requires Consistent(r, json) && IsKey(r, i, json) && Unrecorded(r, i)
    ensures Act(Act(r, DisableKey(Some(i)), json), EnableKey(Some(i)), json) == r.(status := r.status - {i})
  {
    var disabled := Act(r, DisableKey(Some(i)), json);
    EditSaved(r, DisableKey(Some(i)), json);
    EditExactly(r, DisableKey(Some(i)), json);
    EditSaved(disabled, EnableKey(Some(i)), json);
    assert r.status[i := MANUALLY_DISABLED] - {i} == r.status - {i};
    assert r.time - {i} == r.time && r.reason - {i} == r.reason;
  }
}
