/** Cloze texts and trees: reading a text into the tree the renderer walks and printing a tree are
    inverse, and exactly where (internal/render/cloze.go). */
module ClozeRoundTrip {
  import opened Wrappers
  import opened Cloze
  import opened ClozeGrammar

  // ---- Reading the tree back ----

  function Gap(s: string, from: nat, to: nat): seq<Node>
    requires from <= to <= |s|
  {
    if from < to then [Plain(s[from..to])] else []
  }

  /** The tree a text holds, as the renderer walks it: markers by scanning, their contents by
      scanning again. */
  function Read(s: string): seq<Node>
    decreases |s|, 1, 0
  {
    ReadFrom(s, Scan(s), 0, 0)
  }

  function ReadFrom(s: string, spans: seq<Span>, k: nat, pos: nat): seq<Node>
    requires spans == Scan(s) && k <= |spans| && pos <= |s| && (k < |spans| ==> pos <= spans[k].start)
    decreases |s|, 0, |spans| - k
  {
    if k == |spans| then Gap(s, pos, |s|)
    else
      Gap(s, pos, spans[k].start) + [Marker(spans[k].num, Read(spans[k].text), spans[k].hint)]
      + ReadFrom(s, spans, k + 1, spans[k].end)
  }

  // No empty text, and no two texts side by side.
  predicate Normal(nodes: seq<Node>) {
    && (forall k :: 0 <= k < |nodes| ==> NormalNode(nodes[k]))
    && forall k :: 0 <= k < |nodes| - 1 ==> nodes[k].Marker? || nodes[k + 1].Marker?
  }

  predicate NormalNode(node: Node) {
    match node
    case Plain(text) => text != []
    case Marker(_, body, _) =>
      && (forall k :: 0 <= k < |body| ==> NormalNode(body[k]))
      && forall k :: 0 <= k < |body| - 1 ==> body[k].Marker? || body[k + 1].Marker?
  }

  lemma NormalRest(nodes: seq<Node>)
    requires nodes != [] && Normal(nodes)
    ensures Normal(nodes[1..]) && (nodes[0].Marker? ==> Normal(nodes[0].body)) && (nodes[0].Plain? ==> nodes[0].text != [])
    ensures nodes[0].Plain? && |nodes| > 1 ==> nodes[1].Marker?
  {
    assert NormalNode(nodes[0]);
  }

  predicate BodiesExact(nodes: seq<Node>) {
    forall k :: 0 <= k < |nodes| ==> nodes[k].Marker? ==> Exact(nodes[k].body)
  }

  lemma BodiesCons(nodes: seq<Node>)
    requires nodes != [] && BodiesExact(nodes)
    ensures BodiesExact(nodes[1..]) && (nodes[0].Marker? ==> Exact(nodes[0].body))
  {
  }

  // One half of the round trip: an exact tree in normal form is read back.
  lemma {:induction false} ExactReadsBack(nodes: seq<Node>)
    requires Exact(nodes) && Normal(nodes)
    ensures Read(Print(nodes)) == nodes
    decreases nodes, 2
  {
    ScanOfPrint(nodes);
    var s := Print(nodes);
    assert s == "" + s && Scan(s)[0..] == Scan(s) && BodiesExact(nodes);
    hide *;
    ReadPrinted(s, "", nodes, Scan(s), 0);
    ReadIs(s);
  }

  lemma ReadIs(s: string)
    ensures Read(s) == ReadFrom(s, Scan(s), 0, 0)
  {
  }

  lemma {:induction false} ReadPrinted(s: string, pre: string, nodes: seq<Node>, spans: seq<Span>, k: nat)
    requires s == pre + Print(nodes) && BodiesExact(nodes) && Normal(nodes)
    requires spans == Scan(s) && k <= |spans| && spans[k..] == SpansAt(nodes, |pre|)
    ensures (k < |spans| ==> |pre| <= spans[k].start) && ReadFrom(s, spans, k, |pre|) == nodes
    decreases nodes, 1
  {
    hide *;
    if nodes == [] {
      PrintNil(nodes);
      NothingRead(s, pre, nodes, spans, k);
    } else {
      PrintCons(nodes);
      BodiesCons(nodes);
      NormalRest(nodes);
      SpansCons(nodes, |pre|);
      if nodes[0].Marker? {
        ReadThrough(s, pre, [], nodes, spans, k);
      } else if |nodes| == 1 {
        PrintNil(nodes[1..]);
        LastText(s, pre, nodes, spans, k);
      } else {
        var rest := nodes[1..];
        assert rest[0] == nodes[1];
        Assoc(pre, nodes[0].text, Print(rest));
        SpansCons(rest, |pre + nodes[0].text|);
        ReadThrough(s, pre, nodes[0].text, rest, spans, k);
        assert nodes == [Plain(nodes[0].text)] + rest;
      }
    }
  }

  lemma NothingRead(s: string, pre: string, nodes: seq<Node>, spans: seq<Span>, k: nat)
    requires nodes == [] && s == pre && spans == Scan(s) && k <= |spans| && spans[k..] == SpansAt(nodes, |pre|)
    ensures k == |spans| && ReadFrom(s, spans, k, |pre|) == []
  {
  }

  lemma LastText(s: string, pre: string, nodes: seq<Node>, spans: seq<Span>, k: nat)
    requires |nodes| == 1 && nodes[0].Plain? && nodes[0].text != [] && s == pre + nodes[0].text
    requires spans == Scan(s) && k <= |spans| && spans[k..] == SpansAt(nodes, |pre|)
    ensures k == |spans| && ReadFrom(s, spans, k, |pre|) == nodes
  {
    hide *;
    LoneText(nodes, |pre|);
    assert |spans[k..]| == |spans| - k;
    ReadEnd(s, spans, |pre|);
    assert s[|pre|..|s|] == nodes[0].text;
    assert nodes == [Plain(nodes[0].text)];
  }

  lemma LoneText(nodes: seq<Node>, at: nat)
    requires |nodes| == 1 && nodes[0].Plain?
    ensures |SpansAt(nodes, at)| == 0
  {
    assert nodes[1..] == [];
  }

  lemma ReadEnd(s: string, spans: seq<Span>, pos: nat)
    requires spans == Scan(s) && pos <= |s|
    ensures ReadFrom(s, spans, |spans|, pos) == if pos < |s| then [Plain(s[pos..|s|])] else []
  {
  }

  // A text, possibly empty, and the marker behind it.
  lemma {:induction false} ReadThrough(s: string, pre: string, t: string, nodes: seq<Node>, spans: seq<Span>, k: nat)
    requires nodes != [] && nodes[0].Marker? && s == (pre + t) + Print(nodes) && BodiesExact(nodes) && Normal(nodes)
    requires spans == Scan(s) && k <= |spans| && spans[k..] == SpansAt(nodes, |pre + t|)
    ensures k < |spans| && |pre| <= spans[k].start
    ensures ReadFrom(s, spans, k, |pre|) == (if t == [] then [] else [Plain(t)]) + nodes
    decreases nodes, 0
  {
    hide *;
    var head, rest := nodes[0], nodes[1..];
    PrintCons(nodes);
    BodiesCons(nodes);
    NormalRest(nodes);
    SpansCons(nodes, |pre + t|);
    ExactReadsBack(head.body);
    var mid := pre + t + PrintNode(head);
    assert s == mid + Print(rest);
    assert spans[k] == spans[k..][0] && spans[k + 1..] == spans[k..][1..];
    ReadPrinted(s, mid, rest, spans, k + 1);
    SpanIs(head, |pre + t|);
    assert s[|pre|..|pre + t|] == t;
    ReadStep(s, spans, k, |pre|, t);
    assert nodes == [Marker(head.num, head.body, head.hint)] + rest;
  }

  lemma SpanIs(node: Node, at: nat)
    requires node.Marker?
    ensures SpanOf(node, at) == Span(node.num, at, at + |PrintNode(node)|, Print(node.body), node.hint)
  {
  }

  lemma ReadStep(s: string, spans: seq<Span>, k: nat, pos: nat, t: string)
    requires spans == Scan(s) && k < |spans| && pos <= spans[k].start && s[pos..spans[k].start] == t
    ensures ReadFrom(s, spans, k, pos) ==
            (if t == [] then [] else [Plain(t)]) + ([Marker(spans[k].num, Read(spans[k].text), spans[k].hint)]
                                                    + ReadFrom(s, spans, k + 1, spans[k].end))
  {
  }

  // ---- Writing a text back ----

  lemma {:induction false} DigitsShort(d: string)
    requires d != [] && forall k :: 0 <= k < |d| ==> Digit(d[k])
    ensures |Digits(Value(d))| <= |d| && (|Digits(Value(d))| == |d| ==> Digits(Value(d)) == d)
  {
    var init, last := d[..|d| - 1], d[|d| - 1];
    assert Digit(last) && d == init + [last];
    var low := last as int - '0' as int;
    assert Value(d) == 10 * Value(init) + low;
    if init != [] {
      DigitsShort(init);
      if Value(init) > 0 {
        assert Value(d) / 10 == Value(init) && Value(d) % 10 == low;
        assert Digits(Value(d)) == Digits(Value(init)) + [last];
      }
    }
  }

  // Out of range reads as 0, which is written shorter.
  lemma NumberShort(d: string)
    requires d != [] && forall k :: 0 <= k < |d| ==> Digit(d[k])
    ensures |Digits(Number(d))| <= |d| && (|Digits(Number(d))| == |d| ==> Digits(Number(d)) == d)
  {
    DigitsShort(d);
    if |d| == 1 {
      assert d[..0] == [] && Digit(d[0]);
    }
  }

  // A marker with its content left as it is.
  function Unread(m: Span): Node { Marker(m.num, [Plain(m.text)], m.hint) }

  /** Written as printing would: no longer than its parts, so no zeros before its number, which is in
      range, and no separator before an empty hint. */
  predicate CanonicalSpan(m: Span) { m.end - m.start == |PrintNode(Unread(m))| }

  /** Every marker of the text, at every depth, is. */
  predicate Canonical(s: string)
    decreases |s|
  {
    forall k :: 0 <= k < |Scan(s)| ==> CanonicalSpan(Scan(s)[k]) && Canonical(Scan(s)[k].text)
  }

  lemma PrintUnread(num: nat, text: string, hint: string)
    ensures PrintNode(Marker(num, [Plain(text)], hint)) == "{{" + ("c" + Digits(num) + "::") + text + HintText(hint) + "}}"
  {
    assert [Plain(text)][1..] == [];
    assert Print([Plain(text)]) == text + "";
  }

  // Where a marker's digits end and its text does.
  lemma MarkerParts(s: string, start: nat) returns (j: nat, e: nat, sep: bool)
    requires start < |s| && ReadsAt(s, start)
    ensures var m := MarkerAt(s, start).value;
            && start + 3 < j && j + 2 <= e <= m.end - 2 && m.end <= |s| && (sep ==> e + 2 <= m.end - 2)
            && (forall k :: start + 3 <= k < j ==> Digit(s[k])) && m.num == Number(s[start + 3..j])
            && m.text == s[j + 2..e] && m.hint == (if sep then s[e + 2..m.end - 2] else "") && (sep || e == m.end - 2)
            && SepAt(s, j) && ClosesAt(s, m.end - 2) && (sep ==> SepAt(s, e))
  {
    j := DigitsEnd(s, start + 3);
    var c := Close(s, j + 2, 0, None);
    SepInside(s, j + 2, 0, None, j + 2);
    ClosedAt(s, j + 2, 0, None);
    SepWas(s, j + 2, 0, None);
    hide Close, DigitsEnd, Number;
    sep := c.sep.Some?;
    e := if sep then c.sep.value else c.end - 2;
  }

  // How the text of a marker is made up.
  lemma MarkerText(s: string, start: nat) returns (d: string, h: string)
    requires start < |s| && ReadsAt(s, start)
    ensures var m := MarkerAt(s, start).value;
            && d != [] && (forall k :: 0 <= k < |d| ==> Digit(d[k])) && m.num == Number(d)
            && (h == "::" + m.hint || (h == "" && m.hint == ""))
            && s[start..m.end] == "{{" + ("c" + d + "::") + m.text + h + "}}"
  {
    var j, e, sep := MarkerParts(s, start);
    var end := MarkerAt(s, start).value.end;
    d := s[start + 3..j];
    h := s[e..end - 2];
    Ends(s, start, j, e, end, sep, d);
    hide *;
    Joined(s, start, j, e, end);
    if sep { Cut(s, e, e + 2, end - 2); }
  }

  lemma Ends(s: string, start: nat, j: nat, e: nat, end: nat, sep: bool, d: string)
    requires MarksAt(s, start) && start + 3 < j && j + 2 <= e <= end - 2 && end <= |s| && (sep ==> e + 2 <= end - 2)
    requires SepAt(s, j) && ClosesAt(s, end - 2) && (sep ==> SepAt(s, e)) && (sep || e == end - 2)
    requires d == s[start + 3..j] && forall k :: start + 3 <= k < j ==> Digit(s[k])
    ensures s[start..start + 2] == "{{" && s[start + 2..start + 3] == "c" && s[j..j + 2] == "::" && s[end - 2..end] == "}}"
    ensures if sep then s[e..e + 2] == "::" else s[e..end - 2] == ""
    ensures forall k :: 0 <= k < |d| ==> Digit(d[k])
  {
  }

  lemma Joined(s: string, i: nat, j: nat, e: nat, end: nat)
    requires i + 3 < j && j + 2 <= e <= end - 2 && end <= |s|
    ensures s[i..end] == s[i..i + 2] + (s[i + 2..i + 3] + s[i + 3..j] + s[j..j + 2]) + s[j + 2..e] + s[e..end - 2] + s[end - 2..end]
  {
    Cut(s, i, end - 2, end);
    Cut(s, i, e, end - 2);
    Cut(s, i, j + 2, e);
    Cut(s, i, i + 2, j + 2);
    Cut(s, i + 2, j, j + 2);
    Cut(s, i + 2, i + 3, j);
  }

  lemma Cut(s: string, i: nat, m: nat, j: nat)
    requires i <= m <= j <= |s|
    ensures s[i..j] == s[i..m] + s[m..j]
  {
  }

  // Where the scan closes there are closing braces, and where it splits a separator.
  lemma {:induction false} ClosedAt(s: string, k: nat, depth: nat, sep: Option<nat>)
    requires k <= |s| && (sep.Some? ==> sep.value + 2 <= |s|)
    ensures Close(s, k, depth, sep).Closed? ==> ClosesAt(s, Close(s, k, depth, sep).end - 2)
    decreases |s| - k
  {
    if k < |s| {
      if OpensAt(s, k) {
        ClosedAt(s, k + 2, depth + 1, sep);
      } else if ClosesAt(s, k) {
        if depth > 0 { ClosedAt(s, k + 2, depth - 1, sep); }
      } else {
        ClosedAt(s, k + 1, depth, if depth == 0 && sep.None? && SepAt(s, k) then Some(k) else sep);
      }
    }
  }

  lemma {:induction false} SepWas(s: string, k: nat, depth: nat, sep: Option<nat>)
    requires k <= |s| && (sep.Some? ==> sep.value + 2 <= |s| && SepAt(s, sep.value))
    ensures var c := Close(s, k, depth, sep); c.Closed? && c.sep.Some? ==> SepAt(s, c.sep.value)
    decreases |s| - k
  {
    if k < |s| {
      if OpensAt(s, k) {
        SepWas(s, k + 2, depth + 1, sep);
      } else if ClosesAt(s, k) {
        if depth > 0 { SepWas(s, k + 2, depth - 1, sep); }
      } else {
        SepWas(s, k + 1, depth, if depth == 0 && sep.None? && SepAt(s, k) then Some(k) else sep);
      }
    }
  }

  // No marker is shorter than its parts printed, and one as long is their print.
  lemma SpanShort(s: string, start: nat)
    requires start < |s| && ReadsAt(s, start)
    ensures var m := MarkerAt(s, start).value;
            && |PrintNode(Unread(m))| <= m.end - m.start
            && (CanonicalSpan(m) ==> s[m.start..m.end] == PrintNode(Unread(m)))
  {
    var d, h := MarkerText(s, start);
    hide MarkerAt, Number, Digits, PrintNode, MarksAt;
    var m := MarkerAt(s, start).value;
    NumberShort(d);
    PrintUnread(m.num, m.text, m.hint);
    Lengths(d, m.text, h, m.hint);
    Lengths(Digits(m.num), m.text, HintText(m.hint), m.hint);
    assert |s[start..m.end]| == m.end - start;
  }

  lemma Lengths(d: string, text: string, h: string, hint: string)
    requires h == "::" + hint || (h == "" && hint == "")
    ensures |"{{" + ("c" + d + "::") + text + h + "}}"| == 7 + |d| + |text| + |h|
    ensures |HintText(hint)| <= |h| && (|HintText(hint)| == |h| ==> HintText(hint) == h)
  {
  }

  // What the scanner found is what reads where it stands.
  predicate IsMarker(s: string, m: Span) { m.start < |s| && ReadsAt(s, m.start) && MarkerAt(s, m.start) == Some(m) }

  predicate AllRead(s: string, spans: seq<Span>) { forall k :: 0 <= k < |spans| ==> IsMarker(s, spans[k]) }

  lemma AllReadCons(s: string, m: Span, rest: seq<Span>)
    requires IsMarker(s, m) && AllRead(s, rest)
    ensures AllRead(s, [m] + rest)
  {
    hide IsMarker;
  }

  lemma MarkerHere(s: string, start: nat)
    requires start < |s| && MarksAt(s, start) && MarkerAt(s, start).Some?
    ensures IsMarker(s, MarkerAt(s, start).value)
  {
    hide MarkerAt, MarksAt;
  }

  lemma {:induction false} ScanReads(s: string, i: nat)
    requires i <= |s|
    ensures AllRead(s, ScanFrom(s, i))
    decreases |s| - i
  {
    hide ScanFrom, MarkerAt, MarksAt, Find, IsMarker;
    ScanStep(s, i);
    var start := Find(s, i);
    if start < |s| {
      hide AllRead;
      var m := MarkerAt(s, start);
      if m.None? {
        MarkFits(s, start);
        ScanReads(s, start + 3);
      } else {
        MarkerHere(s, start);
        ScanReads(s, m.value.end);
        AllReadCons(s, m.value, ScanFrom(s, m.value.end));
      }
    }
  }

  // Printing, finding and reading back through a text and the marker behind it.
  predicate BodiesReadBack(nodes: seq<Node>) {
    forall k :: 0 <= k < |nodes| ==> nodes[k].Marker? ==> Read(Print(nodes[k].body)) == nodes[k].body
  }

  function Behind(t: string, m: Node, rest: seq<Node>): seq<Node> { (if t == [] then [] else [Plain(t)]) + ([m] + rest) }

  lemma PrintThrough(t: string, m: Node, rest: seq<Node>, at: nat)
    requires m.Marker?
    ensures Print(Behind(t, m, rest)) == t + PrintNode(m) + Print(rest)
    ensures SpansAt(Behind(t, m, rest), at) == [SpanOf(m, at + |t|)] + SpansAt(rest, at + |t| + |PrintNode(m)|)
  {
    var tail := [m] + rest;
    assert tail[1..] == rest && tail[0] == m;
    PrintCons(tail);
    SpansCons(tail, at + |t|);
    hide Print, PrintNode, SpansAt, SpanOf;
    Assoc(t, PrintNode(m), Print(rest));
    if t == [] {
      assert Behind(t, m, rest) == tail;
    } else {
      var nodes := [Plain(t)] + tail;
      assert nodes[1..] == tail && nodes[0] == Plain(t);
      PrintCons(nodes);
      SpansCons(nodes, at);
    }
  }

  lemma KeepThrough(t: string, m: Node, rest: seq<Node>)
    requires m.Marker?
    ensures BodiesReadBack(rest) && Read(Print(m.body)) == m.body ==> BodiesReadBack(Behind(t, m, rest))
    ensures Normal(rest) && Normal(m.body) ==> Normal(Behind(t, m, rest))
  {
    hide Read, Print;
    var nodes := Behind(t, m, rest);
    var n := if t == [] then 0 else 1;
    assert nodes[n] == m && forall k :: n < k < |nodes| ==> nodes[k] == rest[k - n - 1];
  }

  lemma Through(s: string, spans: seq<Span>, k: nat, pos: nat)
    requires spans == Scan(s) && k < |spans| && pos <= spans[k].start
    ensures ReadFrom(s, spans, k, pos) ==
            Behind(s[pos..spans[k].start], Marker(spans[k].num, Read(spans[k].text), spans[k].hint),
                   ReadFrom(s, spans, k + 1, spans[k].end))
    ensures |PrintNode(Unread(spans[k]))| <= spans[k].end - spans[k].start
    ensures CanonicalSpan(spans[k]) ==> s[spans[k].start..spans[k].end] == PrintNode(Unread(spans[k]))
  {
    hide ReadFrom, Read, CanonicalSpan, Unread, PrintNode;
    ReadStep(s, spans, k, pos, s[pos..spans[k].start]);
    ScanReads(s, 0);
    SpanShort(s, spans[k].start);
  }

  /** What the renderer reads is in normal form. */
  lemma {:induction false} ReadIsNormal(s: string)
    ensures Normal(Read(s))
    decreases |s|, 1, 0
  {
    ReadFromNormal(s, Scan(s), 0, 0);
  }

  lemma {:induction false} ReadFromNormal(s: string, spans: seq<Span>, k: nat, pos: nat)
    requires spans == Scan(s) && k <= |spans| && pos <= |s| && (k < |spans| ==> pos <= spans[k].start)
    ensures Normal(ReadFrom(s, spans, k, pos))
    decreases |s|, 0, |spans| - k
  {
    hide *;
    if k == |spans| {
      RestNormal(s, spans, pos);
    } else {
      var rest := ReadFrom(s, spans, k + 1, spans[k].end);
      ReadFromNormal(s, spans, k + 1, spans[k].end);
      ReadIsNormal(spans[k].text);
      Through(s, spans, k, pos);
      KeepThrough(s[pos..spans[k].start], Marker(spans[k].num, Read(spans[k].text), spans[k].hint), rest);
    }
  }

  lemma RestNormal(s: string, spans: seq<Span>, pos: nat)
    requires spans == Scan(s) && pos <= |s|
    ensures Normal(ReadFrom(s, spans, |spans|, pos))
  {
    ReadEnd(s, spans, pos);
    hide ReadFrom, Scan;
  }

  predicate CanonicalFrom(spans: seq<Span>, k: nat) {
    forall j :: k <= j < |spans| ==> CanonicalSpan(spans[j]) && Canonical(spans[j].text)
  }

  // A tree printed from what was read: never longer than the text, and as long exactly when canonical.
  ghost predicate PrintsBack(s: string, spans: seq<Span>, k: nat, pos: nat, nodes: seq<Node>)
    requires k <= |spans| && pos <= |s|
  {
    && |Print(nodes)| <= |s| - pos && (|Print(nodes)| == |s| - pos <==> CanonicalFrom(spans, k))
    && (CanonicalFrom(spans, k) ==> Print(nodes) == s[pos..] && SpansAt(nodes, pos) == spans[k..] && BodiesReadBack(nodes))
  }

  lemma {:induction false} PrintsFrom(s: string, spans: seq<Span>, k: nat, pos: nat)
    requires spans == Scan(s) && k <= |spans| && pos <= |s| && (k < |spans| ==> pos <= spans[k].start)
    ensures PrintsBack(s, spans, k, pos, ReadFrom(s, spans, k, pos))
    decreases |s|, 0, |spans| - k
  {
    if k == |spans| {
      PrintsRest(s, spans, pos);
    } else {
      hide Print, PrintsBack, Canonical, ReadFrom, Read, Scan, Behind;
      var m := spans[k];
      assert m.end <= |s| && |m.text| < |s|;
      PrintsFrom(s, spans, k + 1, m.end);
      PrintOfRead(m.text);
      Through(s, spans, k, pos);
      PrintsOne(s, spans, k, pos, Read(m.text), ReadFrom(s, spans, k + 1, m.end));
    }
  }

  lemma PrintsRest(s: string, spans: seq<Span>, pos: nat)
    requires spans == Scan(s) && pos <= |s|
    ensures PrintsBack(s, spans, |spans|, pos, ReadFrom(s, spans, |spans|, pos))
  {
    ReadEnd(s, spans, pos);
    var nodes := ReadFrom(s, spans, |spans|, pos);
    if pos < |s| {
      assert s[pos..|s|] == s[pos..];
      assert nodes == [Plain(s[pos..])] && nodes[1..] == [];
      PrintCons(nodes);
      SpansCons(nodes, pos);
    }
  }

  lemma PrintsOne(s: string, spans: seq<Span>, k: nat, pos: nat, body: seq<Node>, rest: seq<Node>)
    requires k < |spans| && pos <= spans[k].start <= spans[k].end <= |s|
    requires PrintsBack(s, spans, k + 1, spans[k].end, rest)
    requires |Print(body)| <= |spans[k].text| && (|Print(body)| == |spans[k].text| <==> Canonical(spans[k].text))
    requires Canonical(spans[k].text) ==> Print(body) == spans[k].text && Read(spans[k].text) == body
    requires |PrintNode(Unread(spans[k]))| <= spans[k].end - spans[k].start
    requires CanonicalSpan(spans[k]) ==> s[spans[k].start..spans[k].end] == PrintNode(Unread(spans[k]))
    ensures PrintsBack(s, spans, k, pos, Behind(s[pos..spans[k].start], Marker(spans[k].num, body, spans[k].hint), rest))
  {
    hide Print, PrintNode, Canonical, CanonicalFrom, Read, Behind, BodiesReadBack, SpansAt, Unread, Normal;
    var m := spans[k];
    var t, node := s[pos..m.start], Marker(m.num, body, m.hint);
    PrintThrough(t, node, rest, pos);
    KeepThrough(t, node, rest);
    BodySwapped(m, body);
    CanonicalNext(spans, k);
    if CanonicalFrom(spans, k) {
      hide CanonicalSpan;
      Cut(s, pos, m.start, |s|);
      Cut(s, m.start, m.end, |s|);
      Assoc(t, PrintNode(node), Print(rest));
      assert spans[k..] == [m] + spans[k + 1..];
      SpanIs(node, m.start);
    }
  }

  lemma CanonicalNext(spans: seq<Span>, k: nat)
    requires k < |spans|
    ensures CanonicalFrom(spans, k) <==> CanonicalSpan(spans[k]) && Canonical(spans[k].text) && CanonicalFrom(spans, k + 1)
  {
    hide CanonicalSpan, Canonical;
  }

  // A body as long as the text it was read from.
  lemma BodySwapped(m: Span, body: seq<Node>)
    ensures |PrintNode(Marker(m.num, body, m.hint))| == |PrintNode(Unread(m))| - |m.text| + |Print(body)|
    ensures Print(body) == m.text ==> PrintNode(Marker(m.num, body, m.hint)) == PrintNode(Unread(m))
  {
    PrintUnread(m.num, m.text, m.hint);
    PrintMarker(Marker(m.num, body, m.hint));
  }

  /** The other round trip: a text read and printed is the same text exactly when each of its markers,
      at every depth, is written as printing would write it; any other comes back shorter. */
  lemma {:induction false} PrintOfRead(s: string)
    ensures Print(Read(s)) == s <==> Canonical(s)
    ensures |Print(Read(s))| <= |s| && (|Print(Read(s))| == |s| <==> Canonical(s))
    ensures Canonical(s) ==> SpansAt(Read(s), 0) == Scan(s) && BodiesReadBack(Read(s))
    decreases |s|, 1, 0
  {
    PrintsFrom(s, Scan(s), 0, 0);
    ReadIs(s);
    assert s[0..] == s && Scan(s)[0..] == Scan(s);
    assert CanonicalFrom(Scan(s), 0) <==> Canonical(s);
  }

  /** The round trip: a tree printed and read is the same tree exactly when it is in normal form and
      exact. */
  lemma {:induction false} ReadOfPrint(nodes: seq<Node>)
    ensures Read(Print(nodes)) == nodes <==> Normal(nodes) && Exact(nodes)
    decreases nodes
  {
    var s := Print(nodes);
    if Normal(nodes) && Exact(nodes) { ExactReadsBack(nodes); }
    if Read(s) == nodes {
      ReadIsNormal(s);
      PrintOfRead(s);
      ScanOfPrint(nodes);
      forall k | 0 <= k < |nodes| && nodes[k].Marker? ensures Exact(nodes[k].body) {
        ReadOfPrint(nodes[k].body);
      }
    }
  }

  // ---- The numbers of a tree ----

  predicate HasNumber(nodes: seq<Node>, n: nat) {
    exists k :: 0 <= k < |nodes| && NodeHasNumber(nodes[k], n)
  }

  predicate NodeHasNumber(node: Node, n: nat) {
    node.Marker? && (node.num == n || exists k :: 0 <= k < |node.body| && NodeHasNumber(node.body[k], n))
  }

  /** The numbers found in a printed tree are the numbers of its markers, at every depth. */
  lemma {:induction false} CarriesPrinted(nodes: seq<Node>, n: nat)
    requires Exact(nodes)
    ensures Carries(Print(nodes), n) <==> HasNumber(nodes, n)
    decreases nodes, 1
  {
    ScanOfPrint(nodes);
    assert BodiesExact(nodes);
    SpansCarry(nodes, 0, n);
    assert Carries(Print(nodes), n) <==> CarriesFrom(SpansAt(nodes, 0), n, 0);
  }

  lemma {:induction false} SpansCarry(nodes: seq<Node>, at: nat, n: nat)
    requires BodiesExact(nodes)
    ensures CarriesFrom(SpansAt(nodes, at), n, 0) <==> HasNumber(nodes, n)
    decreases nodes, 0
  {
    if nodes != [] {
      var head, rest := nodes[0], nodes[1..];
      BodiesCons(nodes);
      SpansCarry(rest, at + |PrintNode(head)|, n);
      NumberCons(nodes, n);
      if head.Marker? {
        CarriesPrinted(head.body, n);
        CarriesCons(SpanOf(head, at), SpansAt(rest, at + |PrintNode(head)|), n);
      }
    }
  }

  lemma NumberCons(nodes: seq<Node>, n: nat)
    requires nodes != []
    ensures HasNumber(nodes, n) <==> NodeHasNumber(nodes[0], n) || HasNumber(nodes[1..], n)
  {
    if HasNumber(nodes[1..], n) {
      var k :| 0 <= k < |nodes[1..]| && NodeHasNumber(nodes[1..][k], n);
      assert NodeHasNumber(nodes[k + 1], n);
    }
    if HasNumber(nodes, n) && !NodeHasNumber(nodes[0], n) {
      var k :| 0 <= k < |nodes| && NodeHasNumber(nodes[k], n);
      assert NodeHasNumber(nodes[1..][k - 1], n);
    }
  }

  lemma CarriesCons(span: Span, spans: seq<Span>, n: nat)
    ensures CarriesFrom([span] + spans, n, 0) <==> span.num == n || Carries(span.text, n) || CarriesFrom(spans, n, 0)
  {
    var all := [span] + spans;
    if CarriesFrom(spans, n, 0) {
      var j :| 0 <= j < |spans| && (spans[j].num == n || Carries(spans[j].text, n));
      assert all[j + 1] == spans[j];
    }
    if CarriesFrom(all, n, 0) {
      var j :| 0 <= j < |all| && (all[j].num == n || Carries(all[j].text, n));
      if j > 0 { assert all[j] == spans[j - 1]; }
    }
    if span.num == n || Carries(span.text, n) { assert all[0] == span; }
  }
}
