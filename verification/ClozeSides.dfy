/** The two sides of a cloze card as renderings of the tree its text holds
    (internal/render/cloze.go). */
module ClozeSides {
  import opened Wrappers
  import opened Cloze
  import opened ClozeGrammar
  import opened ClozeRoundTrip

  /** A tree rendered: texts verbatim; on the question the active marker is one blank carrying its own
      hint, on the answer its rendered body between the highlight tags; any other marker is its rendered
      body. */
  function RenderNode(node: Node, ordinal: nat, isCloze: bool, question: bool): seq<Piece>
    decreases node, 0
  {
    match node
    case Plain(text) => [Lit(text)]
    case Marker(num, body, hint) =>
      if isCloze && num == ordinal + 1 && question then [Blank(hint)]
      else if isCloze && num == ordinal + 1 then [HighlightOn] + RenderTree(body, ordinal, isCloze, question) + [HighlightOff]
      else RenderTree(body, ordinal, isCloze, question)
  }

  function RenderTree(nodes: seq<Node>, ordinal: nat, isCloze: bool, question: bool): seq<Piece>
    decreases nodes, 1
  {
    if nodes == [] then []
    else RenderNode(nodes[0], ordinal, isCloze, question) + RenderTree(nodes[1..], ordinal, isCloze, question)
  }

  // What is left of a side without the empty literals, which write nothing.
  function Solid(pieces: seq<Piece>): seq<Piece> {
    if pieces == [] then []
    else (if pieces[0] == Lit("") then [] else [pieces[0]]) + Solid(pieces[1..])
  }

  lemma {:induction false} SolidAppend(a: seq<Piece>, b: seq<Piece>)
    ensures Solid(a + b) == Solid(a) + Solid(b)
    decreases |a|
  {
    if a == [] {
      assert a + b == b;
    } else {
      SolidAppend(a[1..], b);
      assert (a + b)[1..] == a[1..] + b;
    }
  }

  lemma SolidOne(p: Piece)
    ensures Solid([p]) == if p == Lit("") then [] else [p]
  {
    assert [p][1..] == [];
  }

  lemma RenderThrough(t: string, m: Node, rest: seq<Node>, ordinal: nat, isCloze: bool, question: bool)
    ensures RenderTree(Behind(t, m, rest), ordinal, isCloze, question) ==
            Solid([Lit(t)]) + (RenderNode(m, ordinal, isCloze, question) + RenderTree(rest, ordinal, isCloze, question))
  {
    var tail := [m] + rest;
    assert tail[0] == m && tail[1..] == rest;
    SolidOne(Lit(t));
    hide RenderNode, Solid;
    if t == [] {
      assert Behind(t, m, rest) == tail;
    } else {
      var nodes := [Plain(t)] + tail;
      assert nodes[0] == Plain(t) && nodes[1..] == tail;
      RenderPlain(t, ordinal, isCloze, question);
    }
  }

  lemma RenderPlain(t: string, ordinal: nat, isCloze: bool, question: bool)
    ensures RenderNode(Plain(t), ordinal, isCloze, question) == [Lit(t)]
  {
  }

  // The pieces of one marker.
  lemma SpanRenders(m: Span, side: seq<Piece>, body: seq<Node>, ordinal: nat, isCloze: bool, question: bool)
    requires Solid(side) == RenderTree(body, ordinal, isCloze, question)
    ensures Solid(SpanPieces(m, side, isCloze && m.num == ordinal + 1, question)) ==
            RenderNode(Marker(m.num, body, m.hint), ordinal, isCloze, question)
  {
    SolidOne(Blank(m.hint));
    SolidOne(HighlightOn);
    SolidOne(HighlightOff);
    SolidAppend([HighlightOn] + side, [HighlightOff]);
    SolidAppend([HighlightOn], side);
    hide Solid, RenderTree;
  }

  /** Every text: a side is the rendering of the tree the text holds. */
  lemma {:induction false} SideIsRendering(s: string, ordinal: nat, isCloze: bool, question: bool)
    ensures Solid(Side(s, ordinal, isCloze, question)) == RenderTree(Read(s), ordinal, isCloze, question)
    decreases |s|, 1, 0
  {
    SideIs(s, ordinal, isCloze, question);
    ReadIs(s);
    SideFromRenders(s, ordinal, isCloze, question, Scan(s), 0, 0);
  }

  lemma SideIs(s: string, ordinal: nat, isCloze: bool, question: bool)
    ensures Side(s, ordinal, isCloze, question) == SideFrom(s, ordinal, isCloze, question, Scan(s), 0, 0)
  {
  }

  lemma SideStep(s: string, ordinal: nat, isCloze: bool, question: bool, spans: seq<Span>, k: nat, pos: nat)
    requires spans == Scan(s) && k < |spans| && pos <= |s| && pos <= spans[k].start
    ensures SideFrom(s, ordinal, isCloze, question, spans, k, pos) ==
            [Lit(s[pos..spans[k].start])]
            + SpanPieces(spans[k], Side(spans[k].text, ordinal, isCloze, question), isCloze && spans[k].num == ordinal + 1, question)
            + SideFrom(s, ordinal, isCloze, question, spans, k + 1, spans[k].end)
  {
  }

  lemma {:induction false} SideFromRenders(s: string, ordinal: nat, isCloze: bool, question: bool, spans: seq<Span>, k: nat, pos: nat)
    requires spans == Scan(s) && k <= |spans| && pos <= |s| && (k < |spans| ==> pos <= spans[k].start)
    ensures Solid(SideFrom(s, ordinal, isCloze, question, spans, k, pos)) ==
            RenderTree(ReadFrom(s, spans, k, pos), ordinal, isCloze, question)
    decreases |s|, 0, |spans| - k
  {
    hide *;
    if k == |spans| {
      LastLiteral(s, ordinal, isCloze, question, spans, pos);
    } else {
      var m := spans[k];
      var lit := [Lit(s[pos..m.start])];
      var pieces := SpanPieces(m, Side(m.text, ordinal, isCloze, question), isCloze && m.num == ordinal + 1, question);
      var rest := SideFrom(s, ordinal, isCloze, question, spans, k + 1, m.end);
      SideFromRenders(s, ordinal, isCloze, question, spans, k + 1, m.end);
      SideIsRendering(m.text, ordinal, isCloze, question);
      SideStep(s, ordinal, isCloze, question, spans, k, pos);
      SolidAppend(lit + pieces, rest);
      SolidAppend(lit, pieces);
      SpanRenders(m, Side(m.text, ordinal, isCloze, question), Read(m.text), ordinal, isCloze, question);
      Through(s, spans, k, pos);
      RenderThrough(s[pos..m.start], Marker(m.num, Read(m.text), m.hint), ReadFrom(s, spans, k + 1, m.end), ordinal, isCloze, question);
      Assoc(Solid(lit), Solid(pieces), Solid(rest));
    }
  }

  lemma LastLiteral(s: string, ordinal: nat, isCloze: bool, question: bool, spans: seq<Span>, pos: nat)
    requires spans == Scan(s) && pos <= |s|
    ensures Solid(SideFrom(s, ordinal, isCloze, question, spans, |spans|, pos)) ==
            RenderTree(ReadFrom(s, spans, |spans|, pos), ordinal, isCloze, question)
  {
    ReadEnd(s, spans, pos);
    SolidOne(Lit(s[pos..]));
    assert s[pos..|s|] == s[pos..];
    var nodes := ReadFrom(s, spans, |spans|, pos);
    if pos < |s| { assert nodes[1..] == []; }
  }

  /** Every tree that is read back: a side of its printed text is the tree rendered. */
  lemma SideOfPrint(nodes: seq<Node>, ordinal: nat, isCloze: bool, question: bool)
    requires Normal(nodes) && Exact(nodes)
    ensures Solid(Side(Print(nodes), ordinal, isCloze, question)) == RenderTree(nodes, ordinal, isCloze, question)
  {
    SideIsRendering(Print(nodes), ordinal, isCloze, question);
    ReadOfPrint(nodes);
  }
}
