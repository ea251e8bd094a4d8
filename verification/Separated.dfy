/** Lists stored as one string with a separator: Go's `strings.Split`, `strings.Join` and
    `strings.Trim` for a single character.
 */
module Separated {

  function TrimStart(s: string, sep: char): string {
    if s == "" || s[0] != sep then s else TrimStart(s[1..], sep)
  }

  function TrimEnd(s: string, sep: char): string {
    if s == "" || s[|s| - 1] != sep then s else TrimEnd(s[..|s| - 1], sep)
  }

  function Trim(s: string, sep: char): string {
    TrimEnd(TrimStart(s, sep), sep)
  }

  function Split(s: string, sep: char): (parts: seq<string>)
    ensures |parts| > 0
  {
    if s == "" then [""]
    else
      var rest := Split(s[1..], sep);
      if s[0] == sep then [""] + rest else [[s[0]] + rest[0]] + rest[1..]
  }

  function Join(parts: seq<string>, sep: char): string {
    if parts == [] then ""
    else if |parts| == 1 then parts[0]
    else parts[0] + [sep] + Join(parts[1..], sep)
  }

  /** The list a string stands for; the empty string stands for no elements. */
  function Load(s: string, sep: char): seq<string> {
    if s == "" then [] else Split(Trim(s, sep), sep)
  }

  // --------------------------------------------------------------- the ends

  predicate NoSepAtEnds(s: string, sep: char) {
    s == "" || (s[0] != sep && s[|s| - 1] != sep)
  }

  lemma {:induction false} TrimStartEnds(s: string, sep: char)
    ensures TrimStart(s, sep) == "" || TrimStart(s, sep)[0] != sep
  {
    if s != "" && s[0] == sep {
      TrimStartEnds(s[1..], sep);
    }
  }

  lemma {:induction false} TrimEndEnds(s: string, sep: char)
    ensures TrimEnd(s, sep) == "" || TrimEnd(s, sep)[|TrimEnd(s, sep)| - 1] != sep
    ensures TrimEnd(s, sep) != "" ==> s != "" && TrimEnd(s, sep)[0] == s[0]
  {
    if s != "" && s[|s| - 1] == sep {
      TrimEndEnds(s[..|s| - 1], sep);
    }
  }

  lemma {:induction false} TrimTrims(s: string, sep: char)
    ensures NoSepAtEnds(Trim(s, sep), sep)
    ensures NoSepAtEnds(s, sep) ==> Trim(s, sep) == s
  {
    TrimStartEnds(s, sep);
    TrimEndEnds(TrimStart(s, sep), sep);
  }

  // -------------------------------------------------------------- splitting

  lemma {:induction false} SplitHasNoSep(s: string, sep: char)
    ensures forall x :: x in Split(s, sep) ==> sep !in x
    ensures |Split(s, sep)| == 1 ==> sep !in s
  {
    if s != "" {
      SplitHasNoSep(s[1..], sep);
      var rest := Split(s[1..], sep);
      assert rest[0] in rest;
      assert s == [s[0]] + s[1..];
    }
  }

  /** An element at an end is empty exactly when there is nothing or a separator there. */
  lemma {:induction false} SplitEnds(s: string, sep: char)
    ensures Split(s, sep)[0] == "" <==> s == "" || s[0] == sep
    ensures Split(s, sep)[|Split(s, sep)| - 1] == "" <==> s == "" || s[|s| - 1] == sep
  {
    if s != "" {
      var rest := Split(s[1..], sep);
      SplitEnds(s[1..], sep);
      SplitHasNoSep(s[1..], sep);
      if s[0] == sep {
        assert ([""] + rest)[|rest|] == rest[|rest| - 1];
      } else if |rest| > 1 {
        assert Split(s, sep)[|rest| - 1] == rest[|rest| - 1];
      }
    }
  }

  lemma {:induction false} SplitWord(word: string, sep: char)
    requires sep !in word
    ensures Split(word, sep) == [word]
  {
    if word != "" {
      assert word[0] in word && word == [word[0]] + word[1..];
      SplitWord(word[1..], sep);
    }
  }

  lemma {:induction false} SplitFirst(word: string, rest: string, sep: char)
    requires sep !in word
    ensures Split(word + [sep] + rest, sep) == [word] + Split(rest, sep)
  {
    var s := word + [sep] + rest;
    if word == "" {
      assert s[1..] == rest;
    } else {
      assert word[0] in word && word == [word[0]] + word[1..];
      assert s[1..] == word[1..] + [sep] + rest;
      SplitFirst(word[1..], rest, sep);
    }
  }

  // -------------------------------------------------------------- round trip

  predicate NoSep(parts: seq<string>, sep: char) {
    forall i :: 0 <= i < |parts| ==> sep !in parts[i]
  }

  lemma {:induction false} SplitJoin(parts: seq<string>, sep: char)
    requires parts != [] && NoSep(parts, sep)
    ensures Split(Join(parts, sep), sep) == parts
  {
    if |parts| == 1 {
      SplitWord(parts[0], sep);
    } else {
      SplitJoin(parts[1..], sep);
      SplitFirst(parts[0], Join(parts[1..], sep), sep);
    }
  }

  /** No separator inside an element, and no empty element at an end. */
  predicate Storable(parts: seq<string>, sep: char) {
    parts != [] && NoSep(parts, sep) && parts[0] != "" && parts[|parts| - 1] != ""
  }

  lemma {:induction false} JoinEnds(parts: seq<string>, sep: char)
    requires Storable(parts, sep)
    ensures Join(parts, sep) != "" && NoSepAtEnds(Join(parts, sep), sep)
  {
    SplitJoin(parts, sep);
    SplitEnds(Join(parts, sep), sep);
  }

  /** A list that is stored and loaded comes back the same if and only if it is storable. */
  lemma {:induction false} StoreAndLoadExactly(parts: seq<string>, sep: char)
    requires parts != []
    ensures Load(Join(parts, sep), sep) == parts <==> Storable(parts, sep)
  {
    var s := Join(parts, sep);
    if Storable(parts, sep) {
      JoinEnds(parts, sep);
      TrimTrims(s, sep);
      SplitJoin(parts, sep);
    }
    if Load(s, sep) == parts {
      var t := Trim(s, sep);
      TrimTrims(s, sep);
      SplitHasNoSep(t, sep);
      SplitEnds(t, sep);
      assert parts == [""] ==> s == "";
      forall i | 0 <= i < |parts|
        ensures sep !in parts[i]
      {
        assert parts[i] in Split(t, sep);
      }
    }
  }

  lemma {:induction false} LoadedHasNoSep(s: string, sep: char)
    ensures forall x :: x in Load(s, sep) ==> sep !in x
  {
    SplitHasNoSep(Trim(s, sep), sep);
  }
}
