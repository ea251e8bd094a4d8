/** The keys of a channel are one text: lines, or a JSON array whose elements are the keys.
    What a JSON parser makes of a text is a parameter.
 */
module KeyText {
  import opened Options
  import opened Separated
  import opened Text

  const NEWLINE := '\n'

  /** The elements of a JSON array as they are written, or none if the text is no array. */
  type Json = string -> Option<seq<string>>

  function Total(keys: seq<string>): nat {
    if keys == [] then 0 else |keys[0]| + Total(keys[1..])
  }

  /** An array is written with two brackets and a comma between any two elements. */
  ghost predicate ArraySyntax(json: Json) {
    forall t :: json(t).Some? ==> Total(json(t).value) + |json(t).value| + 1 <= |t|
  }

  predicate IsArray(text: string, json: Json) {
    "[" <= TrimSpace(text) && json(TrimSpace(text)).Some?
  }

  /** An array without elements, which the two readers below take differently. */
  predicate IsEmptyArray(text: string, json: Json) {
    IsArray(text, json) && json(TrimSpace(text)).value == []
  }

  /** `GetKeys` */
  function GetKeys(text: string, json: Json): seq<string> {
    if text != "" && IsArray(text, json) then json(TrimSpace(text)).value else Load(text, NEWLINE)
  }

  /** The keys that `Update` counts. */
  function CountedKeys(text: string, json: Json): seq<string> {
    if text != "" && IsArray(text, json) && json(TrimSpace(text)).value != [] then json(TrimSpace(text)).value
    else Load(text, NEWLINE)
  }

  /** `Update` counts the keys that `GetKeys` returns exactly when they are no empty array. */
  lemma CountsAgreeExactly(text: string, json: Json)
    ensures |CountedKeys(text, json)| == |GetKeys(text, json)| <==> !IsEmptyArray(text, json)
    ensures !IsEmptyArray(text, json) ==> CountedKeys(text, json) == GetKeys(text, json)
  {
  }

  /** The keys that come back when they are written as lines: no line break inside, no empty
      key at an end, and no text that reads as an array. */
  predicate Survive(keys: seq<string>, json: Json) {
    Storable(keys, NEWLINE) && !IsArray(Join(keys, NEWLINE), json)
  }

  lemma {:induction false} JoinLength(keys: seq<string>)
    requires keys != []
    ensures |Join(keys, NEWLINE)| == Total(keys) + |keys| - 1
  {
    if |keys| == 1 {
      assert Total(keys[1..]) == 0;
    } else {
      JoinLength(keys[1..]);
    }
  }

  /** A text is longer than the elements it holds as an array, so it is never those elements
      written as lines. */
  lemma ArrayIsLonger(keys: seq<string>, json: Json)
    requires ArraySyntax(json) && keys != [] && IsArray(Join(keys, NEWLINE), json)
    ensures GetKeys(Join(keys, NEWLINE), json) != keys
  {
    var text := Join(keys, NEWLINE);
    JoinLength(keys);
    TrimLeftPart(text);
    TrimRightPart(TrimLeft(text));
    assert text != "" by {
      assert TrimSpace("") == "";
    }
  }

  /** Keys written as lines are read back if and only if they survive. */
  lemma KeysRoundTripExactly(keys: seq<string>, json: Json)
    requires ArraySyntax(json) && keys != []
    ensures GetKeys(Join(keys, NEWLINE), json) == keys <==> Survive(keys, json)
    ensures Survive(keys, json) ==> Join(keys, NEWLINE) != "" && CountedKeys(Join(keys, NEWLINE), json) == keys
  {
    StoreAndLoadExactly(keys, NEWLINE);
    if IsArray(Join(keys, NEWLINE), json) {
      ArrayIsLonger(keys, json);
    }
  }

  /** A key that is more than white space, has no line break and does not start like an
      array. */
  predicate Ordinary(key: string) {
    TrimSpace(key) != "" && TrimSpace(key)[0] != '[' && NEWLINE !in key
  }

  predicate AllOrdinary(keys: seq<string>) {
    forall i :: 0 <= i < |keys| ==> Ordinary(keys[i])
  }

  lemma OrdinaryStart(key: string, rest: string)
    requires Ordinary(key)
    ensures key != "" && !("[" <= TrimSpace(key + rest))
  {
    assert TrimSpace("") == "";
    TrimRightEnds(TrimLeft(key));
    TrimLeftConcat(key, rest);
    TrimRightEnds(TrimLeft(key) + rest);
  }

  lemma OrdinarySurvive(keys: seq<string>, json: Json)
    requires keys != [] && AllOrdinary(keys)
    ensures Survive(keys, json)
  {
    var first, last := keys[0], keys[|keys| - 1];
    OrdinaryStart(last, "");
    var rest := if |keys| == 1 then "" else [NEWLINE] + Join(keys[1..], NEWLINE);
    assert Join(keys, NEWLINE) == first + rest;
    OrdinaryStart(first, rest);
  }
}
