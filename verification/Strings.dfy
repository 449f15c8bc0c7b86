/** Go's string helpers: unicode.IsSpace, strings.Split, strings.Join and strings.Fields. */
module Strings {

  predicate Space(c: char) {
    '\t' <= c <= '\r' || c in {' ', '\U{85}', '\U{A0}', '\U{1680}', '\U{2028}', '\U{2029}', '\U{202F}', '\U{205F}', '\U{3000}'}
    || '\U{2000}' <= c <= '\U{200A}'
  }

  /** strings.Split by one character: at least one part, none of which holds the separator. */
  function Split(s: string, sep: char): (parts: seq<string>)
    ensures parts != []
    ensures forall k :: 0 <= k < |parts| ==> sep !in parts[k]
  {
    if s == [] then [""]
    else
      var init := Split(s[..|s| - 1], sep);
      if s[|s| - 1] == sep then init + [""]
      else init[..|init| - 1] + [init[|init| - 1] + [s[|s| - 1]]]
  }

  function Join(parts: seq<string>, sep: char): string {
    if parts == [] then []
    else if |parts| == 1 then parts[0]
    else Join(parts[..|parts| - 1], sep) + [sep] + parts[|parts| - 1]
  }

  lemma JoinSnoc(parts: seq<string>, sep: char, part: string)
    requires parts != []
    ensures Join(parts + [part], sep) == Join(parts, sep) + [sep] + part
  {
    assert (parts + [part])[..|parts|] == parts;
  }

  /** Joining what was split gives the text back. */
  lemma {:induction false} JoinOfSplit(s: string, sep: char)
    ensures Join(Split(s, sep), sep) == s
  {
    if s != [] {
      var t, c, init := s[..|s| - 1], s[|s| - 1], Split(s[..|s| - 1], sep);
      JoinOfSplit(t, sep);
      if c == sep {
        JoinSnoc(init, sep, "");
      } else {
        var front, last := init[..|init| - 1], init[|init| - 1];
        assert init == front + [last];
        if front != [] {
          JoinSnoc(front, sep, last);
          JoinSnoc(front, sep, last + [c]);
        }
      }
      assert s == t + [c];
    }
  }

  lemma {:induction false} SplitAppend(s: string, sep: char, part: string)
    requires sep !in part
    ensures Split(s + [sep] + part, sep) == Split(s, sep) + [part]
    decreases |part|
  {
    var whole := s + [sep] + part;
    if part == [] {
      assert whole[..|whole| - 1] == s;
    } else {
      var init, c := part[..|part| - 1], part[|part| - 1];
      SplitAppend(s, sep, init);
      assert whole[..|whole| - 1] == s + [sep] + init;
      assert c in part;
      assert part == init + [c];
    }
  }

  lemma {:induction false} SplitPlain(part: string, sep: char)
    requires sep !in part
    ensures Split(part, sep) == [part]
  {
    if part != [] {
      var init, c := part[..|part| - 1], part[|part| - 1];
      SplitPlain(init, sep);
      assert c in part && part == init + [c];
    }
  }

  /** Splitting what was joined gives the parts back exactly when there is one and none holds the
      separator. */
  lemma {:induction false} SplitOfJoin(parts: seq<string>, sep: char)
    ensures Split(Join(parts, sep), sep) == parts <==> parts != [] && forall k :: 0 <= k < |parts| ==> sep !in parts[k]
  {
    if parts != [] && forall k :: 0 <= k < |parts| ==> sep !in parts[k] {
      SplitOfParts(parts, sep);
    }
  }

  lemma {:induction false} SplitOfParts(parts: seq<string>, sep: char)
    requires parts != [] && forall k :: 0 <= k < |parts| ==> sep !in parts[k]
    ensures Split(Join(parts, sep), sep) == parts
  {
    if |parts| == 1 {
      SplitPlain(parts[0], sep);
    } else {
      var front, last := parts[..|parts| - 1], parts[|parts| - 1];
      SplitOfParts(front, sep);
      SplitAppend(Join(front, sep), sep, last);
      assert parts == front + [last];
    }
  }

  predicate Word(w: string) { w != [] && forall k :: 0 <= k < |w| ==> !Space(w[k]) }

  /** strings.Fields: the maximal runs without white space. */
  function Fields(s: string): (words: seq<string>)
    ensures forall k :: 0 <= k < |words| ==> Word(words[k])
    ensures s != [] && !Space(s[|s| - 1]) ==> words != []
  {
    if s == [] then []
    else
      var t, c := s[..|s| - 1], s[|s| - 1];
      var init := Fields(t);
      if Space(c) then init
      else if t == [] || Space(t[|t| - 1]) then init + [[c]]
      else init[..|init| - 1] + [init[|init| - 1] + [c]]
  }

  lemma FieldsSpace(s: string, c: char)
    requires Space(c)
    ensures Fields(s + [c]) == Fields(s)
  {
    assert (s + [c])[..|s|] == s;
  }

  lemma {:induction false} FieldsWord(s: string, w: string)
    requires Word(w) && (s == [] || Space(s[|s| - 1]))
    ensures Fields(s + w) == Fields(s) + [w]
    decreases |w|
  {
    var init, c := w[..|w| - 1], w[|w| - 1];
    assert w == init + [c];
    assert (s + w)[..|s + w| - 1] == s + init;
    if init == [] {
      assert s + init == s;
    } else {
      FieldsWord(s, init);
    }
  }
}
