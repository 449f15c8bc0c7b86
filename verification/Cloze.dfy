/** Cloze markers: the scanner, the numbers a note has cards for, and the two sides of a card
    (internal/render/cloze.go). */
module Cloze {
  import opened Wrappers
  import opened Sorting
  import Rows

  // One {{cN::text::hint}} marker; num is 0 when its number is out of range.
  datatype Span = Span(num: nat, start: nat, end: nat, text: string, hint: string)

  const MAX_INT32 := 2147483647

  // ---- The scanner ----

  predicate OpensAt(s: string, k: nat) { k + 1 < |s| && s[k] == '{' && s[k + 1] == '{' }

  predicate ClosesAt(s: string, k: nat) { k + 1 < |s| && s[k] == '}' && s[k + 1] == '}' }

  predicate SepAt(s: string, k: nat) { k + 1 < |s| && s[k] == ':' && s[k + 1] == ':' }

  predicate MarksAt(s: string, k: nat) { OpensAt(s, k) && k + 2 < |s| && s[k + 2] == 'c' }

  predicate Digit(c: char) { '0' <= c <= '9' }

  // The first marker opening at or after i, or the end.
  function Find(s: string, i: nat): (k: nat)
    requires i <= |s|
    ensures i <= k <= |s| && (k < |s| ==> MarksAt(s, k))
    ensures forall j :: i <= j < k ==> !MarksAt(s, j)
    decreases |s| - i
  {
    if i == |s| || MarksAt(s, i) then i else Find(s, i + 1)
  }

  function DigitsEnd(s: string, i: nat): (j: nat)
    requires i <= |s|
    ensures i <= j <= |s| && (forall k :: i <= k < j ==> Digit(s[k])) && (j < |s| ==> !Digit(s[j]))
    decreases |s| - i
  {
    if i < |s| && Digit(s[i]) then DigitsEnd(s, i + 1) else i
  }

  function Value(digits: string): nat
    requires forall k :: 0 <= k < |digits| ==> Digit(digits[k])
  {
    if digits == [] then 0
    else
      var last := digits[|digits| - 1];
      assert Digit(last);
      10 * Value(digits[..|digits| - 1]) + last as int - '0' as int
  }

  function Number(digits: string): (n: nat)
    requires forall k :: 0 <= k < |digits| ==> Digit(digits[k])
    ensures n <= MAX_INT32
  {
    if 1 <= Value(digits) <= MAX_INT32 then Value(digits) else 0
  }

  // Where the marker whose content is read at k ends, and where its hint is split off.
  datatype Closing = Open | Closed(end: nat, sep: Option<nat>)

  function Close(s: string, k: nat, depth: nat, sep: Option<nat>): (c: Closing)
    requires k <= |s| && (sep.Some? ==> sep.value + 2 <= |s|)
    ensures c.Closed? ==> k + 2 <= c.end <= |s|
    decreases |s| - k
  {
    if k == |s| then Open
    else if OpensAt(s, k) then Close(s, k + 2, depth + 1, sep)
    else if ClosesAt(s, k) then if depth == 0 then Closed(k + 2, sep) else Close(s, k + 2, depth - 1, sep)
    else if depth == 0 && sep.None? && SepAt(s, k) then Close(s, k + 1, depth, Some(k))
    else Close(s, k + 1, depth, sep)
  }

  // A separator found on the way lies inside the content.
  lemma {:induction false} SepInside(s: string, k: nat, depth: nat, sep: Option<nat>, start: nat)
    requires start <= k <= |s|
    requires sep.Some? ==> start <= sep.value && sep.value + 2 <= |s| && (sep.value + 2 <= k || (sep.value + 1 == k && s[k] == ':'))
    ensures var c := Close(s, k, depth, sep);
            c.Closed? && c.sep.Some? ==> start <= c.sep.value && c.sep.value + 2 <= c.end - 2
    decreases |s| - k
  {
    if k < |s| {
      if OpensAt(s, k) {
        SepInside(s, k + 2, depth + 1, sep, start);
      } else if ClosesAt(s, k) {
        if depth > 0 { SepInside(s, k + 2, depth - 1, sep, start); }
      } else if depth == 0 && sep.None? && SepAt(s, k) {
        SepInside(s, k + 1, depth, Some(k), start);
      } else {
        SepInside(s, k + 1, depth, sep, start);
      }
    }
  }

  // The marker opening at start, if there is one.
  function MarkerAt(s: string, start: nat): (m: Option<Span>)
    requires start < |s| && MarksAt(s, start)
    ensures m.Some? ==> m.value.start == start && start + 5 < m.value.end <= |s| && |m.value.text| < m.value.end - start
  {
    var j := DigitsEnd(s, start + 3);
    if j == start + 3 || !SepAt(s, j) then None
    else
      var c := Close(s, j + 2, 0, None);
      if c.Open? then None
      else
        SepInside(s, j + 2, 0, None, j + 2);
        var num := Number(s[start + 3..j]);
        if c.sep.Some? then Some(Span(num, start, c.end, s[j + 2..c.sep.value], s[c.sep.value + 2..c.end - 2]))
        else Some(Span(num, start, c.end, s[j + 2..c.end - 2], ""))
  }

  /** The top-level markers from i on. */
  function ScanFrom(s: string, i: nat): (spans: seq<Span>)
    requires i <= |s|
    ensures forall k :: 0 <= k < |spans| ==> i <= spans[k].start < spans[k].end <= |s| && |spans[k].text| < |s|
    ensures forall j, k :: 0 <= j < k < |spans| ==> spans[j].end <= spans[k].start
    decreases |s| - i
  {
    var start := Find(s, i);
    if start == |s| then []
    else
      var m := MarkerAt(s, start);
      if m.None? then ScanFrom(s, start + 3) else [m.value] + ScanFrom(s, m.value.end)
  }

  function Scan(s: string): (spans: seq<Span>)
    ensures forall k :: 0 <= k < |spans| ==> spans[k].start < spans[k].end <= |s| && |spans[k].text| < |s|
    ensures forall j, k :: 0 <= j < k < |spans| ==> spans[j].end <= spans[k].start
  {
    ScanFrom(s, 0)
  }

  // The inner loop: one marker's content, by index, depth and separator.
  method CloseMarker(s: string, contentStart: nat) returns (end: int, sepIdx: int)
    requires contentStart <= |s|
    ensures var c := Close(s, contentStart, 0, None);
            if c.Open? then end == -1
            else end == c.end && sepIdx == (if c.sep.Some? then c.sep.value else -1)
  {
    var depth, k := 0, contentStart;
    sepIdx, end := -1, -1;
    while k < |s|
      invariant contentStart <= k <= |s| && depth >= 0 && end == -1 && -1 <= sepIdx && (sepIdx >= 0 ==> sepIdx + 2 <= |s|)
      invariant Close(s, contentStart, 0, None) == Close(s, k, depth, if sepIdx < 0 then None else Some(sepIdx))
    {
      if OpensAt(s, k) {
        depth := depth + 1;
        k := k + 2;
      } else if ClosesAt(s, k) {
        if depth == 0 {
          end := k + 2;
          break;
        }
        depth := depth - 1;
        k := k + 2;
      } else if depth == 0 && sepIdx < 0 && SepAt(s, k) {
        sepIdx := k;
        k := k + 1;
      } else {
        k := k + 1;
      }
    }
  }

  // An opening whose number, separator or end is missing is no marker but literal text.
  method ReadMarker(s: string, start: nat) returns (m: Option<Span>)
    requires start < |s| && MarksAt(s, start)
    ensures m == MarkerAt(s, start)
  {
    var j := start + 3;
    while j < |s| && Digit(s[j])
      invariant start + 3 <= j <= |s| && DigitsEnd(s, start + 3) == DigitsEnd(s, j)
    {
      j := j + 1;
    }
    if j == start + 3 || !SepAt(s, j) { return None; }
    var contentStart := j + 2;
    var end, sepIdx := CloseMarker(s, contentStart);
    if end < 0 { return None; }
    SepInside(s, contentStart, 0, None, contentStart);
    var num := Number(s[start + 3..j]);
    var text, hint := "", "";
    if sepIdx >= 0 {
      text := s[contentStart..sepIdx];
      hint := s[sepIdx + 2..end - 2];
    } else {
      text := s[contentStart..end - 2];
    }
    m := Some(Span(num, start, end, text, hint));
  }

  lemma ScanStep(s: string, i: nat)
    requires i <= |s|
    ensures Scan(s) == ScanFrom(s, 0)
    ensures var start := Find(s, i);
            ScanFrom(s, i) ==
            if start == |s| then []
            else
              var m := MarkerAt(s, start);
              if m.None? then ScanFrom(s, start + 3) else [m.value] + ScanFrom(s, m.value.end)
  {
  }

  lemma MarkFits(s: string, k: nat)
    requires MarksAt(s, k)
    ensures k + 3 <= |s|
  {
  }

  method ScanCloze(s: string) returns (spans: seq<Span>)
    ensures spans == Scan(s)
  {
    hide Scan, ScanFrom, MarkerAt, Find, MarksAt;
    spans := [];
    ScanStep(s, 0);
    ScanStep(s, |s|);
    var i := 0;
    while i < |s|
      invariant 0 <= i <= |s| && spans + ScanFrom(s, i) == Scan(s)
      decreases |s| - i
    {
      ScanStep(s, i);
      var start := Find(s, i);
      if start == |s| { break; }
      MarkFits(s, start);
      var m := ReadMarker(s, start);
      if m.None? {
        i := start + 3;
      } else {
        assert spans + ([m.value] + ScanFrom(s, m.value.end)) == spans + [m.value] + ScanFrom(s, m.value.end);
        spans := spans + [m.value];
        i := m.value.end;
      }
    }
  }

  // ---- The numbers a note has cards for ----

  /** Some marker of s, nested to whatever depth, carries the number. */
  predicate Carries(s: string, n: nat)
    decreases |s|
  {
    exists k :: 0 <= k < |Scan(s)| && (Scan(s)[k].num == n || Carries(Scan(s)[k].text, n))
  }

  method Collect(s: string, seen: set<nat>) returns (seen': set<nat>)
    ensures forall n :: n in seen' <==> n in seen || (n >= 1 && Carries(s, n))
    decreases |s|
  {
    var spans := ScanCloze(s);
    seen' := seen;
    for k := 0 to |spans|
      invariant forall n :: n in seen' <==>
                  n in seen || (n >= 1 && exists j :: 0 <= j < k && (spans[j].num == n || Carries(spans[j].text, n)))
    {
      if spans[k].num >= 1 { seen' := seen' + {spans[k].num}; }
      seen' := Collect(spans[k].text, seen');
    }
  }

  /** The distinct numbers of the fields, ascending. */
  method ClozeOrdinals(fields: seq<string>) returns (ordinals: seq<nat>)
    ensures forall n :: n in ordinals <==> n >= 1 && exists i :: 0 <= i < |fields| && Carries(fields[i], n)
    ensures forall i, j :: 0 <= i < j < |ordinals| ==> ordinals[i] < ordinals[j]
  {
    var seen: set<nat> := {};
    for i := 0 to |fields|
      invariant forall n :: n in seen <==> n >= 1 && exists j :: 0 <= j < i && Carries(fields[j], n)
    {
      seen := Collect(fields[i], seen);
    }
    var list: seq<nat>, todo := [], seen;
    while todo != {}
      invariant todo <= seen && Distinct(list)
      invariant forall n :: n in list <==> n in seen && n !in todo
    {
      var n := Rows.Pick(todo);
      todo := todo - {n};
      list := list + [n];
    }
    ordinals := Sort(list, (a: nat, b: nat) => a < b);
    PermutationElements(list, ordinals);
  }

  // ---- The two sides of a card ----

  // What a side is built of: literal field text, a blank, and the tags that highlight an answer.
  datatype Piece = Lit(text: string) | Blank(hint: string) | HighlightOn | HighlightOff

  function SpanPieces(span: Span, body: seq<Piece>, active: bool, question: bool): seq<Piece> {
    if active && question then [Blank(span.hint)]
    else if active then [HighlightOn] + body + [HighlightOff]
    else body
  }

  /** A side: the active number is blanked on the question and highlighted on the answer, every other
      number reads as plain text. */
  function Side(s: string, ordinal: nat, isCloze: bool, question: bool): seq<Piece>
    decreases |s|, 1, 0
  {
    SideFrom(s, ordinal, isCloze, question, Scan(s), 0, 0)
  }

  function SideFrom(s: string, ordinal: nat, isCloze: bool, question: bool, spans: seq<Span>, k: nat, pos: nat): seq<Piece>
    requires spans == Scan(s) && k <= |spans| && pos <= |s| && (k < |spans| ==> pos <= spans[k].start)
    decreases |s|, 0, |spans| - k
  {
    if k == |spans| then [Lit(s[pos..])]
    else
      [Lit(s[pos..spans[k].start])]
      + SpanPieces(spans[k], Side(spans[k].text, ordinal, isCloze, question), isCloze && spans[k].num == ordinal + 1, question)
      + SideFrom(s, ordinal, isCloze, question, spans, k + 1, spans[k].end)
  }

  method RenderSpan(span: Span, ordinal: nat, isCloze: bool, question: bool, out: seq<Piece>) returns (out': seq<Piece>)
    ensures out' == out + SpanPieces(span, Side(span.text, ordinal, isCloze, question), isCloze && span.num == ordinal + 1, question)
    decreases |span.text|, 1
  {
    var active := isCloze && span.num == ordinal + 1;
    out' := out;
    if active && question {
      out' := out' + [Blank(span.hint)];
    } else if active && !question {
      out' := out' + [HighlightOn];
      out' := RenderClozeRecursive(span.text, ordinal, isCloze, question, out');
      out' := out' + [HighlightOff];
    } else {
      out' := RenderClozeRecursive(span.text, ordinal, isCloze, question, out');
    }
  }

  method RenderClozeRecursive(s: string, ordinal: nat, isCloze: bool, question: bool, out: seq<Piece>) returns (out': seq<Piece>)
    ensures out' == out + Side(s, ordinal, isCloze, question)
    decreases |s|, 0
  {
    var spans := ScanCloze(s);
    var pos := 0;
    out' := out;
    for k := 0 to |spans|
      invariant 0 <= pos <= |s| && (k < |spans| ==> pos <= spans[k].start)
      invariant out' + SideFrom(s, ordinal, isCloze, question, spans, k, pos) == out + Side(s, ordinal, isCloze, question)
    {
      var lit := [Lit(s[pos..spans[k].start])];
      ghost var pieces := SpanPieces(spans[k], Side(spans[k].text, ordinal, isCloze, question),
                                     isCloze && spans[k].num == ordinal + 1, question);
      Regroup(out', lit, pieces, SideFrom(s, ordinal, isCloze, question, spans, k + 1, spans[k].end));
      out' := RenderSpan(spans[k], ordinal, isCloze, question, out' + lit);
      pos := spans[k].end;
    }
    out' := out' + [Lit(s[pos..])];
  }

  lemma Regroup<T>(a: seq<T>, b: seq<T>, c: seq<T>, d: seq<T>)
    ensures a + (b + c + d) == a + b + c + d
  {
  }

  // ---- What the sides have to do with the numbers ----

  predicate HasBlank(pieces: seq<Piece>) { exists i :: 0 <= i < |pieces| && pieces[i].Blank? }

  lemma HasBlankAppend(a: seq<Piece>, b: seq<Piece>)
    ensures HasBlank(a + b) <==> HasBlank(a) || HasBlank(b)
  {
    if HasBlank(a) {
      var i :| 0 <= i < |a| && a[i].Blank?;
      assert (a + b)[i].Blank?;
    }
    if HasBlank(b) {
      var i :| 0 <= i < |b| && b[i].Blank?;
      assert (a + b)[|a| + i].Blank?;
    }
  }

  predicate CarriesFrom(spans: seq<Span>, n: nat, k: nat) {
    exists j :: k <= j < |spans| && (spans[j].num == n || Carries(spans[j].text, n))
  }

  /** A question has a blank exactly when the card's number is one of its field's cloze numbers. */
  lemma {:induction false} BlankIffCarried(s: string, ordinal: nat)
    ensures HasBlank(Side(s, ordinal, true, true)) <==> Carries(s, ordinal + 1)
    decreases |s|, 1, 0
  {
    BlankFrom(s, ordinal, Scan(s), 0, 0);
  }

  lemma {:induction false} BlankFrom(s: string, ordinal: nat, spans: seq<Span>, k: nat, pos: nat)
    requires spans == Scan(s) && k <= |spans| && pos <= |s| && (k < |spans| ==> pos <= spans[k].start)
    ensures HasBlank(SideFrom(s, ordinal, true, true, spans, k, pos)) <==> CarriesFrom(spans, ordinal + 1, k)
    decreases |s|, 0, |spans| - k
  {
    if k < |spans| {
      var lit := [Lit(s[pos..spans[k].start])];
      var active := spans[k].num == ordinal + 1;
      var pieces := SpanPieces(spans[k], Side(spans[k].text, ordinal, true, true), active, true);
      var rest := SideFrom(s, ordinal, true, true, spans, k + 1, spans[k].end);
      BlankFrom(s, ordinal, spans, k + 1, spans[k].end);
      BlankIffCarried(spans[k].text, ordinal);
      HasBlankAppend(lit + pieces, rest);
      HasBlankAppend(lit, pieces);
      assert !HasBlank(lit);
      if active { assert pieces[0].Blank?; }
      CarriesNext(spans, ordinal + 1, k);
    }
  }

  lemma CarriesNext(spans: seq<Span>, n: nat, k: nat)
    requires k < |spans|
    ensures CarriesFrom(spans, n, k) <==> spans[k].num == n || Carries(spans[k].text, n) || CarriesFrom(spans, n, k + 1)
  {
  }

  /** Where the card's number does not occur, or the note type is no cloze type, its two sides read
      the same. */
  lemma {:induction false} SidesAgree(s: string, ordinal: nat, isCloze: bool)
    requires isCloze ==> !Carries(s, ordinal + 1)
    ensures Side(s, ordinal, isCloze, true) == Side(s, ordinal, isCloze, false)
    decreases |s|, 1, 0
  {
    SidesAgreeFrom(s, ordinal, isCloze, Scan(s), 0, 0);
  }

  lemma {:induction false} SidesAgreeFrom(s: string, ordinal: nat, isCloze: bool, spans: seq<Span>, k: nat, pos: nat)
    requires spans == Scan(s) && k <= |spans| && pos <= |s| && (k < |spans| ==> pos <= spans[k].start)
    requires isCloze ==> !Carries(s, ordinal + 1)
    ensures SideFrom(s, ordinal, isCloze, true, spans, k, pos) == SideFrom(s, ordinal, isCloze, false, spans, k, pos)
    decreases |s|, 0, |spans| - k
  {
    if k < |spans| {
      SidesAgreeFrom(s, ordinal, isCloze, spans, k + 1, spans[k].end);
      SidesAgree(spans[k].text, ordinal, isCloze);
    }
  }

  function Erase(pieces: seq<Piece>): seq<Piece> {
    if pieces == [] then []
    else
      var init, last := Erase(pieces[..|pieces| - 1]), pieces[|pieces| - 1];
      if last.HighlightOn? || last.HighlightOff? then init else init + [last]
  }

  lemma {:induction false} EraseAppend(a: seq<Piece>, b: seq<Piece>)
    ensures Erase(a + b) == Erase(a) + Erase(b)
  {
    if b == [] {
      assert a + b == a;
    } else {
      EraseAppend(a, b[..|b| - 1]);
      assert (a + b)[..|a + b| - 1] == a + b[..|b| - 1];
    }
  }

  /** Once the highlight is erased, the answer sides of all cards of a note are one text: the field with
      every marker revealed. */
  lemma {:induction false} AnswersAgree(s: string, ordinal: nat, isCloze: bool)
    ensures Erase(Side(s, ordinal, isCloze, false)) == Side(s, 0, false, false)
    decreases |s|, 1, 0
  {
    AnswersAgreeFrom(s, ordinal, isCloze, Scan(s), 0, 0);
  }

  lemma {:induction false} AnswersAgreeFrom(s: string, ordinal: nat, isCloze: bool, spans: seq<Span>, k: nat, pos: nat)
    requires spans == Scan(s) && k <= |spans| && pos <= |s| && (k < |spans| ==> pos <= spans[k].start)
    ensures Erase(SideFrom(s, ordinal, isCloze, false, spans, k, pos)) == SideFrom(s, 0, false, false, spans, k, pos)
    decreases |s|, 0, |spans| - k
  {
    if k < |spans| {
      var lit := [Lit(s[pos..spans[k].start])];
      var body := Side(spans[k].text, ordinal, isCloze, false);
      var active := isCloze && spans[k].num == ordinal + 1;
      var pieces := SpanPieces(spans[k], body, active, false);
      var rest := SideFrom(s, ordinal, isCloze, false, spans, k + 1, spans[k].end);
      AnswersAgreeFrom(s, ordinal, isCloze, spans, k + 1, spans[k].end);
      AnswersAgree(spans[k].text, ordinal, isCloze);
      EraseAppend(lit + pieces, rest);
      EraseAppend(lit, pieces);
      EraseOne(Lit(s[pos..spans[k].start]));
      EraseAround(body);
    } else {
      EraseOne(Lit(s[pos..]));
    }
  }

  lemma EraseOne(p: Piece)
    ensures Erase([p]) == if p.HighlightOn? || p.HighlightOff? then [] else [p]
  {
    assert [p][..0] == [];
  }

  lemma EraseAround(body: seq<Piece>)
    ensures Erase([HighlightOn] + body + [HighlightOff]) == Erase(body)
  {
    EraseAppend([HighlightOn] + body, [HighlightOff]);
    EraseAppend([HighlightOn], body);
    EraseOne(HighlightOn);
    EraseOne(HighlightOff);
  }
}
