/** Two administrators at the same channel. An action reads the row before it takes the
    channel's lock, so the row that it edits can be older than the one that it replaces.
 */
module MultiKeyOverlap {
  import opened KeyText
  import opened MultiKey
  import opened Options
  import opened Separated

  /** An action that read `seen` and finds `stored` when it saves. */
  function Finish(stored: Row, seen: Row, a: Action, json: Json): Row {
    if Accepts(seen, a, json) then Save(stored.text, Edited(seen, a, json), json) else stored
  }

  /** Whatever was done since the read is lost, unless no text is left to be stored: the row
      becomes what the action makes of the row that it read. */
  lemma LastWriterWins(stored: Row, seen: Row, a: Action, json: Json)
    requires Accepts(seen, a, json) && Edited(seen, a, json).text != ""
    ensures Finish(stored, seen, a, json) == Act(seen, a, json)
  {
  }

  predicate Deletes(a: Action) {
    a.DeleteKey? || a.DeleteDisabled?
  }

  // -------------------------------------------------------------------- edits

  /** A row whose text is not empty and reads the same when it is counted. */
  ghost predicate Sound(r: Row, json: Json) {
    Consistent(r, json) && r.text != "" && !IsEmptyArray(r.text, json)
  }

  /** An edit is saved as it is. */
  lemma {:induction false} SavedAsEdited(stored: string, r: Row, a: Action, json: Json)
    requires Sound(r, json) && Accepts(r, a, json) && !Deletes(a)
    ensures Save(stored, Edited(r, a, json), json) == Edited(r, a, json)
  {
    CountsAgreeExactly(r.text, json);
    var edited := Edited(r, a, json);
    assert edited.text == r.text && edited.size == r.size == |CountedKeys(r.text, json)|;
    assert InRange(edited.status, r.size);
    assert Save(stored, edited, json).status == edited.status;
  }

  /** The entries that disabling all keys leaves alone. */
  function Automatic(status: map<int, int>): map<int, int> {
    map i | i in status && status[i] != ENABLED && status[i] != MANUALLY_DISABLED :: status[i]
  }

  /** The rows agree in all that an edit does not overwrite. */
  predicate Agree(r: Row, q: Row, a: Action)
    requires !Deletes(a)
  {
    match a
    case DisableKey(index) =>
      index.Some? && r.(status := r.status - {index.value}) == q.(status := q.status - {index.value})
    case EnableKey(index) => index.Some? && Cleared(r, index.value) == Cleared(q, index.value)
    case EnableAll => r.text == q.text
    case DisableAll => r.(status := Automatic(r.status)) == q.(status := Automatic(q.status))
  }

  lemma {:induction false} OverwrittenEntry(m: map<int, int>, n: map<int, int>, i: int, v: int)
    ensures m[i := v] == n[i := v] <==> m - {i} == n - {i}
  {
    if m[i := v] == n[i := v] {
      assert m - {i} == m[i := v] - {i};
      assert n - {i} == n[i := v] - {i};
    }
    if m - {i} == n - {i} {
      assert m[i := v] == (m - {i})[i := v];
      assert n[i := v] == (n - {i})[i := v];
    }
  }

  lemma {:induction false} OverwrittenEntries(m: map<int, int>, n: map<int, int>, size: int)
    requires InRange(m, size) && InRange(n, size)
    ensures DisableEnabled(m, size) == DisableEnabled(n, size) <==> Automatic(m) == Automatic(n)
  {
    AutomaticIsLeft(m, size);
    AutomaticIsLeft(n, size);
    DisabledFromAutomatic(m, size);
    DisabledFromAutomatic(n, size);
  }

  lemma {:induction false} AutomaticIsLeft(m: map<int, int>, size: int)
    requires InRange(m, size)
    ensures Automatic(DisableEnabled(m, size)) == Automatic(m)
  {
  }

  /** Every key is disabled manually if it is not disabled automatically. */
  function FromAutomatic(automatic: map<int, int>, size: int): map<int, int> {
    map i | 0 <= i < size :: if i in automatic then automatic[i] else MANUALLY_DISABLED
  }

  lemma {:induction false} DisabledFromAutomatic(m: map<int, int>, size: int)
    requires InRange(m, size)
    ensures DisableEnabled(m, size) == FromAutomatic(Automatic(m), size)
  {
  }

  /** An edit of an older row gives the row that it gives in sequence if and only if the two
      rows differ in nothing but what the edit overwrites. */
  lemma {:induction false} StaleEditExactly(stored: Row, seen: Row, a: Action, json: Json)
    requires Sound(stored, json) && Sound(seen, json) && !Deletes(a)
    requires Accepts(stored, a, json) && Accepts(seen, a, json)
    ensures Finish(stored, seen, a, json) == Act(stored, a, json) <==> Agree(stored, seen, a)
  {
    SavedAsEdited(stored.text, seen, a, json);
    SavedAsEdited(stored.text, stored, a, json);
    match a
    case DisableKey(index) => OverwrittenEntry(stored.status, seen.status, index.value, MANUALLY_DISABLED);
    case DisableAll =>
      if stored.size == seen.size {
        OverwrittenEntries(stored.status, seen.status, seen.size);
      }
    case _ =>
  }

  // ---------------------------------------------------------------- deletions

  /** The rows agree in every key but one and in what is recorded of it. */
  ghost predicate AgreeBut(r: Row, q: Row, i: int, json: Json) {
    && |Keys(r, json)| == |Keys(q, json)|
    && (forall j :: 0 <= j < |Keys(r, json)| && j != i ==> SameKey(r, q, j, json))
  }

  ghost predicate SameKey(r: Row, q: Row, j: int, json: Json) {
    && 0 <= j < |Keys(r, json)| && j < |Keys(q, json)| && Keys(r, json)[j] == Keys(q, json)[j]
    && Effective(r.status, j) == Effective(q.status, j)
    && SameEntry(r.time, q.time, j) && SameEntry(r.reason, q.reason, j)
  }

  predicate SameEntry<T(==)>(m: map<int, T>, n: map<int, T>, j: int) {
    (j in m <==> j in n) && (j in m ==> m[j] == n[j])
  }

  lemma {:induction false} SamePicks<T>(
    m: map<int, T>, n: map<int, T>, status: map<int, int>, others: map<int, int>, kept: seq<int>)
    ensures Pick(m, kept, status, false) == Pick(n, kept, others, false) <==>
              forall j :: 0 <= j < |kept| ==> SameEntry(m, n, kept[j])
  {
    var p, q := Pick(m, kept, status, false), Pick(n, kept, others, false);
    if p == q {
      forall j | 0 <= j < |kept| ensures SameEntry(m, n, kept[j]) {
        assert j in p <==> j in q;
      }
    }
  }

  lemma {:induction false} SameStatuses(m: map<int, int>, n: map<int, int>, kept: seq<int>)
    ensures PickStatus(m, kept) == PickStatus(n, kept) <==>
              forall j :: 0 <= j < |kept| ==> Effective(m, kept[j]) == Effective(n, kept[j])
  {
    var p, q := PickStatus(m, kept), PickStatus(n, kept);
    if p == q {
      forall j | 0 <= j < |kept| ensures Effective(m, kept[j]) == Effective(n, kept[j]) {
        assert j in p <==> j in q;
      }
    }
  }

  ghost predicate AgreeOn(r: Row, q: Row, kept: seq<int>, json: Json) {
    forall at :: 0 <= at < |kept| ==> SameKey(r, q, kept[at], json)
  }

  lemma {:induction false} AgreeOnKept(r: Row, q: Row, i: int, json: Json)
    requires |Keys(r, json)| == |Keys(q, json)|
    ensures AgreeOn(r, q, Kept(|Keys(r, json)|, {i}), json) <==> AgreeBut(r, q, i, json)
  {
    var n := |Keys(r, json)|;
    var kept := Kept(n, {i});
    KeptIndices(n, {i});
    if AgreeOn(r, q, kept, json) {
      forall j | 0 <= j < n && j != i ensures SameKey(r, q, j, json) {
        assert j in kept;
        var at :| 0 <= at < |kept| && kept[at] == j;
      }
    }
  }

  ghost predicate WithinKeys(kept: seq<int>, n: int) {
    forall at :: 0 <= at < |kept| ==> 0 <= kept[at] < n
  }

  lemma {:induction false} SameRest(keys: seq<string>, others: seq<string>, kept: seq<int>)
    requires |keys| == |others| && WithinKeys(kept, |keys|)
    ensures PickKeys(keys, kept) == PickKeys(others, kept) <==>
              forall at :: 0 <= at < |kept| ==> keys[kept[at]] == others[kept[at]]
  {
    if PickKeys(keys, kept) == PickKeys(others, kept) {
      forall at | 0 <= at < |kept| ensures keys[kept[at]] == others[kept[at]] {
        assert PickKeys(keys, kept)[at] == PickKeys(others, kept)[at];
      }
    }
  }

  /** The kept keys and the maps at their new indices are the same. */
  ghost predicate SamePicked(r: Row, q: Row, kept: seq<int>, json: Json)
    requires |Keys(r, json)| == |Keys(q, json)| && WithinKeys(kept, |Keys(r, json)|)
  {
    && PickKeys(Keys(r, json), kept) == PickKeys(Keys(q, json), kept)
    && PickStatus(r.status, kept) == PickStatus(q.status, kept)
    && Pick(r.time, kept, r.status, false) == Pick(q.time, kept, q.status, false)
    && Pick(r.reason, kept, r.status, false) == Pick(q.reason, kept, q.status, false)
  }

  lemma {:induction false} PickedAgree(r: Row, q: Row, kept: seq<int>, json: Json)
    requires |Keys(r, json)| == |Keys(q, json)| && WithinKeys(kept, |Keys(r, json)|)
    ensures SamePicked(r, q, kept, json) <==> AgreeOn(r, q, kept, json)
  {
    SameRest(Keys(r, json), Keys(q, json), kept);
    SameStatuses(r.status, q.status, kept);
    SamePicks(r.time, q.time, r.status, q.status, kept);
    SamePicks(r.reason, q.reason, r.status, q.status, kept);
    if AgreeOn(r, q, kept, json) {
      forall at | 0 <= at < |kept| ensures SameKey(r, q, kept[at], json) {
      }
    }
  }

  /** A deletion of a key of an older row gives the row that it gives in sequence if and only
      if the two rows agree in every other key and all that belongs to it. */
  lemma {:induction false} StaleDeleteExactly(stored: Row, seen: Row, i: int, json: Json)
    requires ArraySyntax(json) && Consistent(stored, json) && Consistent(seen, json)
    requires Accepts(stored, DeleteKey(Some(i)), json) && Survive(Remaining(stored, {i}, json), json)
    requires Accepts(seen, DeleteKey(Some(i)), json) && Survive(Remaining(seen, {i}, json), json)
    ensures Finish(stored, seen, DeleteKey(Some(i)), json) == Act(stored, DeleteKey(Some(i)), json)
       <==> AgreeBut(stored, seen, i, json)
  {
    SavedAsWritten(stored, {i}, false, json);
    SavedAsWritten(seen, {i}, false, json);
    KeysRoundTripExactly(Remaining(seen, {i}, json), json);
    KeptAllButOne(|Keys(stored, json)|, i);
    KeptAllButOne(|Keys(seen, json)|, i);
    if |Keys(stored, json)| == |Keys(seen, json)| {
      KeptIndices(|Keys(seen, json)|, {i});
      PickedAgree(stored, seen, Kept(|Keys(seen, json)|, {i}), json);
      AgreeOnKept(stored, seen, i, json);
    }
  }

  // ---------------------------------------------------------- undone deletions

  lemma {:induction false} DeletionShrinks(r: Row, deletion: Action, json: Json)
    requires ArraySyntax(json) && Consistent(r, json) && Deletes(deletion) && Accepts(r, deletion, json)
    requires Survive(Remaining(r, Dropped(r, deletion, json), json), json)
    ensures |Keys(Act(r, deletion, json), json)| < |Keys(r, json)|
    ensures Consistent(Act(r, deletion, json), json)
  {
    var dropped := Dropped(r, deletion, json);
    var i :| i in dropped && 0 <= i < |Keys(r, json)|;
    KeptFewer(|Keys(r, json)|, dropped, i);
    SavedAsWritten(r, dropped, deletion.DeleteDisabled?, json);
  }

  /** An edit that read the row before a deletion and saves after it brings the deleted keys
      back. In sequence they stay deleted. */
  lemma {:induction false} EditUndoesDeletion(r: Row, deletion: Action, edit: Action, json: Json)
    requires ArraySyntax(json) && Sound(r, json) && Deletes(deletion) && !Deletes(edit)
    requires Accepts(r, deletion, json) && Accepts(r, edit, json)
    requires Survive(Remaining(r, Dropped(r, deletion, json), json), json)
    ensures var after := Act(r, deletion, json);
            && Keys(Finish(after, r, edit, json), json) == Keys(r, json)
            && |Keys(Act(after, edit, json), json)| == |Keys(after, json)| < |Keys(r, json)|
  {
    var after := Act(r, deletion, json);
    DeletionShrinks(r, deletion, json);
    LastWriterWins(after, r, edit, json);
    EditExactly(r, edit, json);
    if Accepts(after, edit, json) {
      EditExactly(after, edit, json);
    }
  }
}
