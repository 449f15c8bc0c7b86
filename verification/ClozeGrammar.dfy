/** The cloze scanner read as a grammar: exactly which printed trees of markers scan back
    (internal/render/cloze.go). */
module ClozeGrammar {
  import opened Wrappers
  import opened Cloze

  datatype Node = Plain(text: string) | Marker(num: nat, body: seq<Node>, hint: string)

  function Digits(n: nat): (d: string)
    ensures d != [] && forall k :: 0 <= k < |d| ==> Digit(d[k])
  {
    var last := (n % 10 + '0' as int) as char;
    if n < 10 then [last] else Digits(n / 10) + [last]
  }

  lemma {:induction false} DigitsValue(n: nat)
    ensures Value(Digits(n)) == n
  {
    var d := Digits(n);
    if n >= 10 {
      DigitsValue(n / 10);
      assert d[..|d| - 1] == Digits(n / 10);
    } else {
      assert d[..0] == [];
    }
  }

  function HintText(hint: string): string { if hint == [] then [] else "::" + hint }

  function PrintNode(node: Node): string
    decreases node, 0
  {
    match node
    case Plain(text) => text
    case Marker(num, body, hint) => "{{" + ("c" + Digits(num) + "::") + Print(body) + HintText(hint) + "}}"
  }

  function Print(nodes: seq<Node>): string
    decreases nodes, 1
  {
    if nodes == [] then [] else PrintNode(nodes[0]) + Print(nodes[1..])
  }

  // ---- Which trees scan back ----

  // What a marker's closing scan reads: everything behind "{{cN::".
  function Content(node: Node): string
    requires node.Marker?
  {
    Print(node.body) + HintText(node.hint) + "}}"
  }

  /** A marker that reads as itself on its own: its number is in range, and the scan of its own content
      splits at its own hint and closes at its own braces. */
  predicate Alone(node: Node)
    requires node.Marker?
  {
    && node.num <= MAX_INT32
    && Close(Content(node), 0, 0, None) ==
       Closed(|Content(node)|, if node.hint == [] then None else Some(|Print(node.body)|))
  }

  // A marker the scanner would take here.
  predicate ReadsAt(s: string, k: nat) { MarksAt(s, k) && MarkerAt(s, k).Some? }

  predicate NoMarker(s: string, i: nat, j: nat) { forall k: nat :: i <= k < j ==> !ReadsAt(s, k) }

  /** One level of a printed tree: each marker reads as itself, and none begins inside a text. */
  predicate LevelExact(s: string, nodes: seq<Node>, at: nat) {
    nodes == []
    || ((if nodes[0].Plain? then NoMarker(s, at, at + |nodes[0].text|) else Alone(nodes[0]))
        && LevelExact(s, nodes[1..], at + |PrintNode(nodes[0])|))
  }

  /** Every level of the tree is exact. */
  predicate Exact(nodes: seq<Node>) {
    && LevelExact(Print(nodes), nodes, 0)
    && forall k :: 0 <= k < |nodes| ==> nodes[k].Marker? ==> Exact(nodes[k].body)
  }

  // No two opening and no two closing braces meet.
  predicate PairFree(t: string) { forall k :: 0 <= k < |t| - 1 ==> !OpensAt(t, k) && !ClosesAt(t, k) }

  // No two colons meet.
  predicate NoSep(t: string) { forall k :: 0 <= k < |t| - 1 ==> t[k] != ':' || t[k + 1] != ':' }

  predicate NoMark(t: string) { forall k :: 0 <= k < |t| ==> !MarksAt(t, k) }

  // The text of one level, each nested marker standing as its first brace and a blank.
  function Level(nodes: seq<Node>): string {
    if nodes == [] then []
    else (if nodes[0].Plain? then nodes[0].text else "{ ") + Level(nodes[1..])
  }

  /** A sufficient condition on the characters alone. Single braces are free: inside a marker no brace
      pair and no double colon may form in the texts, in the hint, or where they meet what follows; at
      the top only the opening of a marker may not. */
  predicate Clean(nodes: seq<Node>) {
    NoMark(Level(nodes)) && forall k :: 0 <= k < |nodes| ==> CleanNode(nodes[k])
  }

  predicate CleanNode(node: Node) {
    match node
    case Plain(_) => true
    case Marker(num, body, hint) =>
      && num <= MAX_INT32 && PairFree(hint + "}")
      && PairFree(Level(body) + (if hint == [] then "}" else ":")) && NoSep(Level(body) + (if hint == [] then "" else ":"))
      && forall k :: 0 <= k < |body| ==> CleanNode(body[k])
  }

  // ---- Closing a printed marker ----

  // Whether a separator would still be taken at this depth.
  predicate Taken(depth: nat, sep: Option<nat>) { depth == 0 && sep.None? }

  // Nothing in t turns the closing scan.
  predicate Calm(t: string, seps: bool) { PairFree(t) && (seps ==> NoSep(t)) }

  lemma CalmPart(a: string, b: string, c: string, seps: bool)
    requires Calm(a + b + c, seps)
    ensures Calm(b + c, seps)
    ensures b + c != [] ==> Calm(a + [(b + c)[0]], seps)
  {
    var t, v := a + b + c, b + c;
    forall k | 0 <= k < |v| - 1
      ensures !OpensAt(v, k) && !ClosesAt(v, k) && (seps ==> v[k] != ':' || v[k + 1] != ':')
    {
      assert t[|a| + k] == v[k] && t[|a| + k + 1] == v[k + 1] && !OpensAt(t, |a| + k) && !ClosesAt(t, |a| + k);
    }
    if v != [] {
      var u := a + [v[0]];
      forall k | 0 <= k < |u| - 1
        ensures !OpensAt(u, k) && !ClosesAt(u, k) && (seps ==> u[k] != ':' || u[k + 1] != ':')
      {
        assert t[k] == u[k] && t[k + 1] == u[k + 1] && !OpensAt(t, k) && !ClosesAt(t, k);
      }
    }
  }

  lemma {:induction false} SkipText(s: string, pre: string, t: string, post: string, depth: nat, sep: Option<nat>)
    requires s == pre + t + post && post != [] && Calm(t + [post[0]], Taken(depth, sep))
    requires sep.Some? ==> sep.value + 2 <= |s|
    ensures Close(s, |pre|, depth, sep) == Close(s, |pre| + |t|, depth, sep)
    decreases |t|
  {
    if t != [] {
      var k, u := |pre|, t + [post[0]];
      assert s[k] == u[0] && s[k + 1] == u[1];
      assert !OpensAt(u, 0) && !ClosesAt(u, 0);
      assert Close(s, k, depth, sep) == Close(s, k + 1, depth, sep);
      assert s == (pre + [t[0]]) + t[1..] + post;
      assert u == [t[0]] + t[1..] + [post[0]];
      CalmPart([t[0]], t[1..], [post[0]], Taken(depth, sep));
      SkipText(s, pre + [t[0]], t[1..], post, depth, sep);
    }
  }

  lemma {:induction false} FirstChar(nodes: seq<Node>, post: string)
    requires post != []
    ensures (Print(nodes) + post)[0] == (Level(nodes) + [post[0]])[0]
  {
    if nodes != [] {
      FirstChar(nodes[1..], post);
      if nodes[0].Plain? && nodes[0].text == [] {
        assert Print(nodes) == Print(nodes[1..]) && Level(nodes) == Level(nodes[1..]);
      }
    }
  }

  // How the scan moves, one token at a time.
  lemma CloseAtOpening(s: string, pre: string, rest: string, depth: nat, sep: Option<nat>)
    requires s == pre + "{{" + rest && (sep.Some? ==> sep.value + 2 <= |s|)
    ensures Close(s, |pre|, depth, sep) == Close(s, |pre| + 2, depth + 1, sep)
  {
    assert s[|pre|] == '{' && s[|pre| + 1] == '{';
  }

  lemma CloseAtClosing(s: string, pre: string, rest: string, depth: nat, sep: Option<nat>)
    requires s == pre + "}}" + rest && (sep.Some? ==> sep.value + 2 <= |s|)
    ensures Close(s, |pre|, depth, sep) == if depth == 0 then Closed(|pre| + 2, sep) else Close(s, |pre| + 2, depth - 1, sep)
  {
    assert s[|pre|] == '}' && s[|pre| + 1] == '}';
  }

  lemma CloseAtSep(s: string, pre: string, rest: string)
    requires s == pre + "::" + rest
    ensures |pre| + 2 <= |s| && Close(s, |pre|, 0, None) == Close(s, |pre| + 1, 0, Some(|pre|))
  {
    SepBehind(s, pre, rest);
    hide Close;
    SplitsHere(s, |pre|);
  }

  lemma SplitsHere(s: string, k: nat)
    requires SepAt(s, k)
    ensures k + 2 <= |s| && Close(s, k, 0, None) == Close(s, k + 1, 0, Some(k))
  {
  }

  lemma PrintCons(nodes: seq<Node>)
    requires nodes != []
    ensures Print(nodes) == PrintNode(nodes[0]) + Print(nodes[1..])
    ensures Level(nodes) == (if nodes[0].Plain? then nodes[0].text else "{ ") + Level(nodes[1..])
    ensures nodes[0].Plain? ==> PrintNode(nodes[0]) == nodes[0].text
  {
  }

  lemma PrintNil(nodes: seq<Node>)
    requires nodes == []
    ensures Print(nodes) == []
  {
  }

  // A printed marker: opening, number, content.
  function Head(node: Node): string
    requires node.Marker?
  {
    "c" + Digits(node.num) + "::"
  }

  lemma PrintMarker(node: Node)
    requires node.Marker?
    ensures PrintNode(node) == "{{" + Head(node) + Print(node.body) + HintText(node.hint) + "}}"
    ensures |PrintNode(node)| == 2 + |Head(node)| + |Print(node.body)| + |HintText(node.hint)| + 2
  {
  }

  lemma Assoc<T>(a: seq<T>, b: seq<T>, c: seq<T>)
    ensures a + b + c == a + (b + c)
  {
  }

  predicate CleanInside(nodes: seq<Node>) { forall k :: 0 <= k < |nodes| ==> CleanNode(nodes[k]) }

  // The scan passes a calm printed level by: its markers are nested, its texts turn nothing.
  lemma {:induction false} SkipNodes(s: string, pre: string, nodes: seq<Node>, post: string, depth: nat, sep: Option<nat>)
    requires s == pre + Print(nodes) + post && post != [] && CleanInside(nodes)
    requires sep.Some? ==> sep.value + 2 <= |s|
    requires Calm(Level(nodes) + [post[0]], Taken(depth, sep))
    ensures Close(s, |pre|, depth, sep) == Close(s, |pre| + |Print(nodes)|, depth, sep)
    decreases nodes, 1
  {
    hide *;
    if nodes == [] {
      PrintNil(nodes);
    } else {
      var head, rest := nodes[0], nodes[1..];
      PrintCons(nodes);
      CleanCons(nodes);
      var mid, after := pre + PrintNode(head), Print(rest) + post;
      assert s == pre + PrintNode(head) + after && s == mid + Print(rest) + post;
      SplitLevel(nodes, post, Taken(depth, sep));
      if head.Plain? {
        SkipText(s, pre, head.text, after, depth, sep);
      } else {
        SkipMarker(s, pre, head, after, depth, sep);
      }
      SkipNodes(s, mid, rest, post, depth, sep);
    }
  }

  lemma CleanCons(nodes: seq<Node>)
    requires nodes != [] && CleanInside(nodes)
    ensures CleanInside(nodes[1..]) && CleanNode(nodes[0])
  {
  }

  lemma SplitLevel(nodes: seq<Node>, post: string, seps: bool)
    requires nodes != [] && post != [] && Calm(Level(nodes) + [post[0]], seps)
    ensures Calm(Level(nodes[1..]) + [post[0]], seps)
    ensures Print(nodes[1..]) + post != []
    ensures nodes[0].Plain? ==> Calm(nodes[0].text + [(Print(nodes[1..]) + post)[0]], seps)
  {
    hide Calm;
    var first, rest := if nodes[0].Plain? then nodes[0].text else "{ ", nodes[1..];
    assert Level(nodes) + [post[0]] == first + Level(rest) + [post[0]];
    CalmPart(first, Level(rest), [post[0]], seps);
    FirstChar(rest, post);
  }

  lemma {:induction false} SkipMarker(s: string, pre: string, node: Node, post: string, depth: nat, sep: Option<nat>)
    requires node.Marker? && CleanNode(node) && s == pre + PrintNode(node) + post && post != []
    requires sep.Some? ==> sep.value + 2 <= |s|
    ensures Close(s, |pre|, depth, sep) == Close(s, |pre| + |PrintNode(node)|, depth, sep)
    decreases node, 0
  {
    hide Close, PrintNode, Print, Head, HintText, Calm, CleanInside, CleanNode;
    var head, body, hint := Head(node), Print(node.body), HintText(node.hint);
    PrintMarker(node);
    CleanParts(node, post);
    HintCalm(node);
    var tail := "}}" + post;
    var a := pre + "{{";
    var b := a + head;
    var c := b + body;
    var d := c + hint;
    assert s == d + "}}" + post;
    assert s == c + hint + tail;
    assert s == b + body + (hint + tail);
    assert s == a + head + (body + (hint + tail));
    assert s == pre + "{{" + (head + (body + (hint + tail)));
    CloseAtOpening(s, pre, head + (body + (hint + tail)), depth, sep);
    HeadCalm(node, (body + (hint + tail))[0]);
    SkipText(s, a, head, body + (hint + tail), depth + 1, sep);
    SkipNodes(s, b, node.body, hint + tail, depth + 1, sep);
    SkipText(s, c, hint, tail, depth + 1, sep);
    CloseAtClosing(s, d, post, depth + 1, sep);
  }

  lemma HeadCalm(node: Node, next: char)
    requires node.Marker?
    ensures Calm(Head(node) + [next], false)
  {
    var t := Head(node);
    forall k | 0 <= k < |t| ensures t[k] != '{' && t[k] != '}' {
      if 1 <= k < 1 + |Digits(node.num)| { assert t[k] == Digits(node.num)[k - 1]; }
    }
  }

  // What a clean marker's parts are, each with the character behind it.
  lemma CleanParts(node: Node, post: string)
    requires node.Marker? && CleanNode(node)
    ensures CleanInside(node.body)
    ensures Calm(Level(node.body) + [(HintText(node.hint) + ("}}" + post))[0]], true)
    ensures Calm(Level(node.body) + [(HintText(node.hint) + ("}}" + post))[0]], false)
  {
    var body, next := Level(node.body), (HintText(node.hint) + ("}}" + post))[0];
    if node.hint == [] {
      assert body + "" == body && "}" == [next];
    } else {
      assert ":" == [next];
    }
  }

  lemma HintCalm(node: Node)
    requires node.Marker? && CleanNode(node)
    ensures Calm(HintText(node.hint) + ['}'], false) && Calm(":" + node.hint + ['}'], false)
  {
    ColonBefore(node.hint + "}");
    ColonBefore(":" + (node.hint + "}"));
    assert ":" + node.hint + ['}'] == ":" + (node.hint + "}");
    assert node.hint != [] ==> HintText(node.hint) + ['}'] == ":" + (":" + (node.hint + "}"));
  }

  lemma ColonBefore(t: string)
    requires PairFree(t)
    ensures PairFree(":" + t)
  {
    var u := ":" + t;
    forall k | 0 <= k < |u| - 1 ensures !OpensAt(u, k) && !ClosesAt(u, k) {
      if k > 0 { assert !OpensAt(t, k - 1) && !ClosesAt(t, k - 1); }
    }
  }

  // A clean marker's content: its body is passed, its own separator taken, its hint passed, its own
  // braces reached.
  lemma BodyPassed(s: string, node: Node)
    requires node.Marker? && CleanNode(node) && s == Content(node)
    ensures |Print(node.body)| < |s| && Close(s, 0, 0, None) == Close(s, |Print(node.body)|, 0, None)
  {
    hide Close, Print, PrintNode, Calm, CleanInside, CleanNode, HintText, Level;
    CleanParts(node, "");
    var body, post := Print(node.body), HintText(node.hint) + ("}}" + "");
    assert "}}" + "" == "}}";
    Assoc(body, HintText(node.hint), "}}");
    assert s == "" + body + post;
    SkipNodes(s, "", node.body, post, 0, None);
  }

  lemma OwnSep(s: string, node: Node)
    requires node.Marker? && s == Content(node) && node.hint != []
    ensures var k := |Print(node.body)|; k + 2 <= |s| && Close(s, k, 0, None) == Close(s, k + 1, 0, Some(k))
  {
    hide Close, Print;
    assert s == Print(node.body) + "::" + (node.hint + "}}");
    CloseAtSep(s, Print(node.body), node.hint + "}}");
  }

  lemma HintPassed(s: string, node: Node)
    requires node.Marker? && CleanNode(node) && s == Content(node) && node.hint != []
    ensures var k := |Print(node.body)|;
            k + 4 + |node.hint| == |s| && Close(s, k + 1, 0, Some(k)) == Close(s, k + 2 + |node.hint|, 0, Some(k))
  {
    hide Close, Print, Calm, CleanNode, PrintNode;
    var t := ":" + node.hint + ['}'];
    HintCalm(node);
    HintChars(s, Print(node.body), node.hint, t);
    hide HintText, Content;
    SkipRange(s, |Print(node.body)| + 1, t, Some(|Print(node.body)|));
  }

  // The second colon, the hint and the first closing brace, where they stand.
  lemma HintChars(s: string, body: string, hint: string, t: string)
    requires s == body + ("::" + hint) + "}}" && t == ":" + hint + ['}']
    ensures |t| == |hint| + 2 && |s| == |body| + |hint| + 4
    ensures forall i :: 0 <= i < |t| ==> s[|body| + 1 + i] == t[i]
  {
  }

  // The scan passes what it can no longer split by, up to the last character of t.
  lemma {:induction false} SkipRange(s: string, k: nat, t: string, sep: Option<nat>)
    requires t != [] && k + |t| <= |s| && (forall i :: 0 <= i < |t| ==> s[k + i] == t[i])
    requires Calm(t, false) && sep.Some? && sep.value + 2 <= |s|
    ensures Close(s, k, 0, sep) == Close(s, k + |t| - 1, 0, sep)
    decreases |t|
  {
    if |t| > 1 {
      assert s[k] == t[0] && s[k + 1] == t[1] && !OpensAt(t, 0) && !ClosesAt(t, 0);
      assert t == [t[0]] + t[1..] + [] && t[1..] + [] == t[1..];
      CalmPart([t[0]], t[1..], [], false);
      forall i | 0 <= i < |t[1..]| ensures s[k + 1 + i] == t[1..][i] {
        assert s[k + (i + 1)] == t[i + 1];
      }
      SkipRange(s, k + 1, t[1..], sep);
    }
  }

  lemma OwnEnd(s: string, node: Node, sep: Option<nat>)
    requires node.Marker? && s == Content(node) && (sep.Some? ==> sep.value + 2 <= |s|)
    ensures var k := |Print(node.body)| + |HintText(node.hint)|; k <= |s| && Close(s, k, 0, sep) == Closed(|s|, sep)
  {
    hide Close, Print, HintText;
    var pre := Print(node.body) + HintText(node.hint);
    assert s == pre + "}}" + "";
    CloseAtClosing(s, pre, "", 0, sep);
  }

  // Read from just behind "{{cN::", a clean marker closes at its own braces and splits at its own hint.
  lemma CloseOwn(s: string, node: Node)
    requires node.Marker? && CleanNode(node) && s == Content(node)
    ensures Close(s, 0, 0, None) == Closed(|s|, if node.hint == [] then None else Some(|Print(node.body)|))
  {
    hide Close, Print, CleanNode, Content;
    BodyPassed(s, node);
    if node.hint == [] {
      OwnEnd(s, node, None);
    } else {
      OwnSep(s, node);
      HintPassed(s, node);
      OwnEnd(s, node, Some(|Print(node.body)|));
      assert |HintText(node.hint)| == 2 + |node.hint|;
    }
  }

  lemma CleanIsAlone(node: Node)
    requires node.Marker? && CleanNode(node)
    ensures Alone(node)
  {
    CloseOwn(Content(node), node);
  }

  // ---- A marker read where it stands and on its own ----

  function Later(sep: Option<nat>, n: nat): Option<nat> { if sep.None? then None else Some(sep.value + n) }

  function Moved(c: Closing, n: nat): Closing { if c.Open? then Open else Closed(c.end + n, Later(c.sep, n)) }

  lemma SameTokens(s: string, pre: string, x: string, post: string, k: nat)
    requires s == pre + x + post && k + 1 < |x|
    ensures OpensAt(s, |pre| + k) <==> OpensAt(x, k)
    ensures ClosesAt(s, |pre| + k) <==> ClosesAt(x, k)
    ensures SepAt(s, |pre| + k) <==> SepAt(x, k)
  {
    assert s[|pre| + k] == x[k] && s[|pre| + k + 1] == x[k + 1];
  }

  lemma CloseStep(s: string, k: nat, depth: nat, sep: Option<nat>)
    requires k + 1 < |s| && (sep.Some? ==> sep.value + 2 <= |s|)
    ensures Close(s, k, depth, sep) ==
            if OpensAt(s, k) then Close(s, k + 2, depth + 1, sep)
            else if ClosesAt(s, k) then if depth == 0 then Closed(k + 2, sep) else Close(s, k + 2, depth - 1, sep)
            else if depth == 0 && sep.None? && SepAt(s, k) then Close(s, k + 1, depth, Some(k))
            else Close(s, k + 1, depth, sep)
  {
  }

  /** Closing is local: a content that closes does so wherever it stands, and what closes within it
      closes it alone. */
  lemma {:induction false} CloseMoves(s: string, pre: string, x: string, post: string, k: nat, depth: nat, sep: Option<nat>)
    requires s == pre + x + post && k <= |x| && (sep.Some? ==> sep.value + 2 <= |x|)
    ensures var here, there := Close(x, k, depth, sep), Close(s, |pre| + k, depth, Later(sep, |pre|));
            && (here.Closed? ==> there == Moved(here, |pre|))
            && (there.Closed? && there.end <= |pre| + |x| ==> here.Closed?)
    decreases |x| - k
  {
    hide Close, OpensAt, ClosesAt, SepAt;
    if k + 1 < |x| {
      SameTokens(s, pre, x, post, k);
      CloseStep(x, k, depth, sep);
      CloseStep(s, |pre| + k, depth, Later(sep, |pre|));
      if OpensAt(x, k) {
        CloseMoves(s, pre, x, post, k + 2, depth + 1, sep);
      } else if ClosesAt(x, k) {
        if depth > 0 { CloseMoves(s, pre, x, post, k + 2, depth - 1, sep); }
      } else if depth == 0 && sep.None? && SepAt(x, k) {
        CloseMoves(s, pre, x, post, k + 1, depth, Some(k));
      } else {
        CloseMoves(s, pre, x, post, k + 1, depth, sep);
      }
    } else {
      LastOpen(x, k, depth, sep);
    }
  }

  // A scan that starts at the last character, or behind it, closes nothing.
  lemma LastOpen(x: string, k: nat, depth: nat, sep: Option<nat>)
    requires k <= |x| <= k + 1 && (sep.Some? ==> sep.value + 2 <= |x|)
    ensures Close(x, k, depth, sep) == Open
  {
  }

  lemma {:induction false} DigitsEndAt(s: string, pre: string, d: string, post: string)
    requires s == pre + d + post && (forall k :: 0 <= k < |d| ==> Digit(d[k])) && (post != [] ==> !Digit(post[0]))
    ensures DigitsEnd(s, |pre|) == |pre| + |d|
    decreases |d|
  {
    if d != [] {
      assert s[|pre|] == d[0];
      assert s == (pre + [d[0]]) + d[1..] + post;
      DigitsEndAt(s, pre + [d[0]], d[1..], post);
    } else if post != [] {
      assert s[|pre|] == post[0];
    }
  }

  function SpanOf(node: Node, at: nat): Span
    requires node.Marker?
  {
    Span(node.num, at, at + |PrintNode(node)|, Print(node.body), node.hint)
  }

  // The opening of a printed marker: its digits end at the separator.
  lemma HeadSplits(s: string, pre: string, node: Node, rest: string) returns (a: string, d: string)
    requires node.Marker? && s == pre + "{{" + Head(node) + rest
    ensures a == pre + "{{c" && d == Digits(node.num) && |Head(node)| == |d| + 3 && |a| == |pre| + 3
    ensures s == a + d + ("::" + rest)
  {
    a, d := pre + "{{c", Digits(node.num);
    Regroup3(pre, "{{", "c", d, "::", rest);
    assert "{{" + "c" == "{{c";
  }

  lemma HeadRead(s: string, pre: string, node: Node, rest: string) returns (j: nat)
    requires node.Marker? && s == pre + "{{" + Head(node) + rest
    ensures MarksAt(s, |pre|) && |pre| + 3 < j == DigitsEnd(s, |pre| + 3) && SepAt(s, j)
    ensures j + 2 == |pre| + 2 + |Head(node)| && s[|pre| + 3..j] == Digits(node.num)
  {
    hide *;
    var a, d := HeadSplits(s, pre, node, rest);
    j := |a| + |d|;
    NotDigit("::" + rest);
    DigitsEndAt(s, a, d, "::" + rest);
    Slice(s, a, d, "::" + rest);
    Assoc(a, d, "::" + rest);
    Assoc(pre, "{{c", d + ("::" + rest));
    MarksBehind(s, pre, d + ("::" + rest));
    Assoc(a + d, "::", rest);
    SepBehind(s, a + d, rest);
  }

  lemma Regroup3<T>(pre: seq<T>, x: seq<T>, y: seq<T>, d: seq<T>, z: seq<T>, rest: seq<T>)
    ensures pre + x + (y + d + z) + rest == pre + (x + y) + d + (z + rest)
  {
  }

  lemma NotDigit(t: string)
    requires t != [] && t[0] == ':'
    ensures !Digit(t[0])
  {
  }

  lemma MarksBehind(s: string, pre: string, rest: string)
    requires s == pre + "{{c" + rest
    ensures MarksAt(s, |pre|)
  {
    assert s[|pre|] == '{' && s[|pre| + 1] == '{' && s[|pre| + 2] == 'c';
  }

  lemma SepBehind(s: string, pre: string, rest: string)
    requires s == pre + "::" + rest
    ensures SepAt(s, |pre|)
  {
    assert s[|pre|] == ':' && s[|pre| + 1] == ':';
  }

  lemma Slice(s: string, a: string, t: string, b: string)
    requires s == a + t + b
    ensures s[|a|..|a| + |t|] == t
  {
  }

  lemma NumberPrinted(node: Node)
    requires node.Marker?
    ensures Number(Digits(node.num)) == node.num <==> node.num <= MAX_INT32
  {
    DigitsValue(node.num);
  }

  // What MarkerAt answers once the digits are known.
  function Split(s: string, num: nat, start: nat, from: nat, c: Closing): Option<Span>
    requires from <= |s|
    requires c.Closed? ==> from + 2 <= c.end <= |s| && (c.sep.Some? ==> from <= c.sep.value && c.sep.value + 2 <= c.end - 2)
  {
    if c.Open? then None
    else if c.sep.Some? then Some(Span(num, start, c.end, s[from..c.sep.value], s[c.sep.value + 2..c.end - 2]))
    else Some(Span(num, start, c.end, s[from..c.end - 2], ""))
  }

  lemma MarkerSplits(s: string, start: nat, j: nat)
    requires start < |s| && MarksAt(s, start) && start + 3 < j == DigitsEnd(s, start + 3) && SepAt(s, j)
    ensures var c := Close(s, j + 2, 0, None);
            && (c.Closed? && c.sep.Some? ==> j + 2 <= c.sep.value && c.sep.value + 2 <= c.end - 2)
            && MarkerAt(s, start) == Split(s, Number(s[start + 3..j]), start, j + 2, c)
  {
    SepInside(s, j + 2, 0, None, j + 2);
  }

  // The span is the printed node's exactly when number, separator and end are.
  lemma SplitIsOwn(s: string, b: string, node: Node, post: string, num: nat, start: nat, c: Closing)
    requires node.Marker? && s == b + Content(node) + post && start + |PrintNode(node)| == |b| + |Content(node)|
    requires c.Closed? ==> |b| + 2 <= c.end <= |s| && (c.sep.Some? ==> |b| <= c.sep.value && c.sep.value + 2 <= c.end - 2)
    ensures Split(s, num, start, |b|, c) == Some(SpanOf(node, start)) <==>
            num == node.num
            && c == Closed(|b| + |Content(node)|, if node.hint == [] then None else Some(|b| + |Print(node.body)|))
  {
    hide Print, PrintNode;
    var body, hint := Print(node.body), HintText(node.hint);
    var end := |b| + |Content(node)|;
    assert |Content(node)| == |body| + |hint| + 2;
    if node.hint == [] {
      assert s == b + body + ("}}" + post);
    } else {
      assert s == b + body + ("::" + node.hint + "}}" + post);
      assert s == (b + body + "::") + node.hint + ("}}" + post);
      assert s[|b| + |body| + 2..end - 2] == node.hint;
    }
    assert s[|b|..|b| + |body|] == body;
  }

  /** A printed marker is read as itself, whatever stands around it, exactly when it is alone. */
  lemma MarkerRead(s: string, pre: string, node: Node, post: string)
    requires node.Marker? && s == pre + PrintNode(node) + post
    ensures |pre| < |s| && MarksAt(s, |pre|) && (MarkerAt(s, |pre|) == Some(SpanOf(node, |pre|)) <==> Alone(node))
  {
    hide Close, PrintNode, Print, Head, Digits, DigitsEnd, Number, MarkerAt, Split, MarksAt, SepAt, SpanOf, HintText;
    PrintMarker(node);
    var x, b := Content(node), pre + "{{" + Head(node);
    assert x == Print(node.body) + HintText(node.hint) + "}}";
    assert s == pre + "{{" + Head(node) + (x + post);
    assert s == b + x + post;
    var j := HeadRead(s, pre, node, x + post);
    NumberPrinted(node);
    MarkerSplits(s, |pre|, j);
    CloseMoves(s, b, x, post, 0, 0, None);
    SplitIsOwn(s, b, node, post, Number(s[|pre| + 3..j]), |pre|, Close(s, |b|, 0, None));
  }

  // ---- Scanning a printed tree ----

  /** The markers of a level, where they stand in the printed text. */
  function SpansAt(nodes: seq<Node>, at: nat): seq<Span> {
    if nodes == [] then []
    else
      var rest := SpansAt(nodes[1..], at + |PrintNode(nodes[0])|);
      if nodes[0].Marker? then [SpanOf(nodes[0], at)] + rest else rest
  }

  lemma FindOn(s: string, i: nat)
    requires i < |s| && !MarksAt(s, i)
    ensures Find(s, i) == Find(s, i + 1)
  {
  }

  // Where no marker reads, the scan goes on one character later: openings do not overlap.
  lemma ScanOn(s: string, i: nat)
    requires i < |s| && !ReadsAt(s, i)
    ensures ScanFrom(s, i) == ScanFrom(s, i + 1)
  {
    if MarksAt(s, i) {
      assert i + 3 <= |s| && !MarksAt(s, i + 1) && !MarksAt(s, i + 2) && Find(s, i) == i;
      hide MarksAt, MarkerAt, ScanFrom, Find;
      FindOn(s, i + 1);
      FindOn(s, i + 2);
      SameFind(s, i + 1, i + 3);
      ScanStep(s, i);
    } else {
      hide MarksAt, MarkerAt, ScanFrom;
      FindOn(s, i);
      SameFind(s, i, i + 1);
    }
  }

  lemma SameFind(s: string, i: nat, j: nat)
    requires i <= |s| && j <= |s| && Find(s, i) == Find(s, j)
    ensures ScanFrom(s, i) == ScanFrom(s, j)
  {
    hide MarkerAt, Find, MarksAt;
  }

  lemma {:induction false} ScanOver(s: string, i: nat, j: nat)
    requires i <= j <= |s| && NoMarker(s, i, j)
    ensures ScanFrom(s, i) == ScanFrom(s, j)
    decreases j - i
  {
    hide ScanFrom, ReadsAt;
    if i < j {
      ScanOn(s, i);
      ScanOver(s, i + 1, j);
    }
  }

  predicate StartFrom(spans: seq<Span>, j: nat) { forall k :: 0 <= k < |spans| ==> j <= spans[k].start }

  // A scan that finds nothing before j passes no marker there.
  lemma {:induction false} NothingBefore(s: string, i: nat, j: nat)
    requires i <= j <= |s| && StartFrom(ScanFrom(s, i), j)
    ensures NoMarker(s, i, j)
    decreases j - i
  {
    hide ScanFrom, ReadsAt;
    if i < j {
      if ReadsAt(s, i) { FoundHere(s, i); }
      ScanOn(s, i);
      hide StartFrom;
      NothingBefore(s, i + 1, j);
    }
  }

  lemma FoundHere(s: string, i: nat)
    requires i < |s| && ReadsAt(s, i)
    ensures ScanFrom(s, i) != [] && ScanFrom(s, i)[0].start == i
  {
    MarkerScanned(s, i, MarkerAt(s, i).value);
  }

  lemma MarkerScanned(s: string, i: nat, m: Span)
    requires i < |s| && MarksAt(s, i) && MarkerAt(s, i) == Some(m)
    ensures ScanFrom(s, i) == [m] + ScanFrom(s, m.end)
  {
    assert Find(s, i) == i;
  }

  lemma SpansCons(nodes: seq<Node>, at: nat)
    requires nodes != []
    ensures var rest := SpansAt(nodes[1..], at + |PrintNode(nodes[0])|);
            SpansAt(nodes, at) == if nodes[0].Marker? then [SpanOf(nodes[0], at)] + rest else rest
    ensures nodes[0].Marker? ==> SpanOf(nodes[0], at).start == at < SpanOf(nodes[0], at).end == at + |PrintNode(nodes[0])|
  {
  }

  lemma {:induction false} SpansStart(nodes: seq<Node>, at: nat)
    ensures StartFrom(SpansAt(nodes, at), at)
  {
    if nodes != [] {
      SpansStart(nodes[1..], at + |PrintNode(nodes[0])|);
      SpansCons(nodes, at);
    }
  }

  lemma LevelCons(s: string, nodes: seq<Node>, at: nat)
    requires nodes != []
    ensures LevelExact(s, nodes, at) <==>
            && (nodes[0].Plain? ==> NoMarker(s, at, at + |nodes[0].text|))
            && (nodes[0].Marker? ==> Alone(nodes[0]))
            && LevelExact(s, nodes[1..], at + |PrintNode(nodes[0])|)
  {
  }

  lemma {:induction false} ScanPrinted(s: string, pre: string, nodes: seq<Node>)
    requires s == pre + Print(nodes)
    ensures ScanFrom(s, |pre|) == SpansAt(nodes, |pre|) <==> LevelExact(s, nodes, |pre|)
    decreases |nodes|
  {
    hide *;
    if nodes == [] {
      NothingLeft(s, pre, nodes);
    } else {
      var head, rest := nodes[0], nodes[1..];
      PrintCons(nodes);
      var mid := pre + PrintNode(head);
      assert s == mid + Print(rest) && s == pre + PrintNode(head) + Print(rest);
      ScanPrinted(s, mid, rest);
      SpansCons(nodes, |pre|);
      LevelCons(s, nodes, |pre|);
      SpansStart(rest, |mid|);
      if head.Plain? {
        if NoMarker(s, |pre|, |mid|) {
          ScanOver(s, |pre|, |mid|);
        } else if ScanFrom(s, |pre|) == SpansAt(nodes, |pre|) {
          NothingBefore(s, |pre|, |mid|);
        }
      } else {
        MarkerRead(s, pre, head, Print(rest));
        HeadScanned(s, |pre|, SpanOf(head, |pre|), SpansAt(rest, |mid|));
      }
    }
  }

  lemma NothingLeft(s: string, pre: string, nodes: seq<Node>)
    requires nodes == [] && s == pre + Print(nodes)
    ensures |pre| <= |s| && ScanFrom(s, |pre|) == SpansAt(nodes, |pre|) && LevelExact(s, nodes, |pre|)
  {
    assert Find(s, |s|) == |s|;
  }

  // At an opening the scan starts with m exactly when m is what stands there.
  lemma HeadScanned(s: string, i: nat, m: Span, rest: seq<Span>)
    requires i < |s| && MarksAt(s, i) && m.start == i && i < m.end <= |s|
    ensures ScanFrom(s, i) == [m] + rest <==> MarkerAt(s, i) == Some(m) && ScanFrom(s, m.end) == rest
  {
    var all := [m] + rest;
    assert all[0] == m && all[1..] == rest;
    if ReadsAt(s, i) {
      MarkerScanned(s, i, MarkerAt(s, i).value);
      var found := [MarkerAt(s, i).value] + ScanFrom(s, MarkerAt(s, i).value.end);
      assert found[0] == MarkerAt(s, i).value && found[1..] == ScanFrom(s, MarkerAt(s, i).value.end);
    } else {
      ScanOn(s, i);
      assert ScanFrom(s, i + 1) != [] ==> ScanFrom(s, i + 1)[0].start > i;
    }
  }

  /** Printing then scanning: the scanner finds exactly the markers of the top level, each with its
      number, its printed body and its hint, if and only if each of them reads as itself on its own and
      no text begins another. */
  lemma ScanOfPrint(nodes: seq<Node>)
    ensures Scan(Print(nodes)) == SpansAt(nodes, 0) <==> LevelExact(Print(nodes), nodes, 0)
  {
    assert Print(nodes) == "" + Print(nodes);
    ScanPrinted(Print(nodes), "", nodes);
  }

  // ---- Clean trees are exact ----

  // No opening begins in the text u before a clean level, or straddles its end.
  lemma {:induction false} NoMarkHere(s: string, pre: string, u: string, nodes: seq<Node>)
    requires s == pre + u + Print(nodes) && NoMark(u + Level(nodes))
    ensures forall k :: |pre| <= k < |pre| + |u| ==> !MarksAt(s, k)
    decreases |nodes|
  {
    hide MarksAt;
    var t := u + Level(nodes);
    if nodes != [] && nodes[0].Plain? {
      hide NoMark;
      var v := u + nodes[0].text;
      assert t == v + Level(nodes[1..]) && s == pre + v + Print(nodes[1..]);
      NoMarkHere(s, pre, v, nodes[1..]);
    } else {
      if nodes != [] {
        PrintCons(nodes);
        PrintMarker(nodes[0]);
        assert s[|pre| + |u|] == '{' && s[|pre| + |u| + 1] == '{';
      }
      hide Print, Level, PrintNode;
      forall k | |pre| <= k < |pre| + |u| ensures !MarksAt(s, k) {
        assert !MarksAt(t, k - |pre|);
        MarkWithin(s, pre, u, t, k);
      }
    }
  }

  // An opening in u is one of t; one straddling the end of u would need a 'c' where there is a brace.
  lemma MarkWithin(s: string, pre: string, u: string, t: string, k: nat)
    requires |pre| <= k < |pre| + |u| <= |s| && s[|pre|..|pre| + |u|] == u && u <= t
    requires |pre| + |u| == |s| || (|pre| + |u| + 1 < |s| && s[|pre| + |u|] == '{' && s[|pre| + |u| + 1] == '{')
    ensures MarksAt(s, k) ==> MarksAt(t, k - |pre|)
  {
    forall j | |pre| <= j < |pre| + |u| ensures s[j] == t[j - |pre|] {
      assert s[|pre|..|pre| + |u|][j - |pre|] == s[j];
    }
  }

  lemma NoMarkPart(a: string, b: string)
    requires NoMark(a + b)
    ensures NoMark(b)
  {
    forall k | 0 <= k < |b| ensures !MarksAt(b, k) {
      assert !MarksAt(a + b, |a| + k);
    }
  }

  lemma {:induction false} CleanLevel(s: string, pre: string, nodes: seq<Node>)
    requires s == pre + Print(nodes) && NoMark(Level(nodes)) && CleanInside(nodes)
    ensures LevelExact(s, nodes, |pre|)
    decreases |nodes|
  {
    if nodes != [] {
      hide Print, PrintNode, Level, NoMark, CleanInside, CleanNode, Alone;
      var head, rest := nodes[0], nodes[1..];
      PrintCons(nodes);
      CleanCons(nodes);
      var mid := pre + PrintNode(head);
      assert s == mid + Print(rest);
      NoMarkPart(if head.Plain? then head.text else "{ ", Level(rest));
      CleanLevel(s, mid, rest);
      if head.Plain? {
        NoMarkHere(s, pre, head.text, rest);
      } else {
        CleanIsAlone(head);
      }
    }
  }

  lemma PairFreeNoMark(t: string, next: string)
    requires PairFree(t + next)
    ensures NoMark(t)
  {
    forall k | 0 <= k < |t| ensures !MarksAt(t, k) {
      if k + 1 < |t| { assert !OpensAt(t + next, k); }
    }
  }

  /** Trees clean in their characters scan back at every level. */
  lemma {:induction false} CleanIsExact(nodes: seq<Node>)
    requires Clean(nodes)
    ensures Exact(nodes)
    decreases nodes
  {
    var s := Print(nodes);
    assert s == "" + s;
    CleanLevel(s, "", nodes);
    forall k | 0 <= k < |nodes| && nodes[k].Marker? ensures Exact(nodes[k].body) {
      assert CleanNode(nodes[k]);
      PairFreeNoMark(Level(nodes[k].body), if nodes[k].hint == [] then "}" else ":");
      CleanIsExact(nodes[k].body);
    }
  }

  /** Not every tree is: a marker without a hint whose text ends in a brace loses it to its own end. */
  lemma TrailingBraceLost(num: nat, t: string)
    requires Calm(t + "}", true)
    ensures var node := Marker(num, [Plain(t + "}")], "");
            Close(Content(node), 0, 0, None) == Closed(|t| + 2, None) && !Alone(node) && !Exact([node])
  {
    var node := Marker(num, [Plain(t + "}")], "");
    var s := Content(node);
    assert [Plain(t + "}")][1..] == [] && Print(node.body) == t + "}" + "";
    assert s == "" + t + "}}}" && s == t + "}}" + "}";
    assert t + ["}}}"[0]] == t + "}";
    SkipText(s, "", t, "}}}", 0, None);
    CloseAtClosing(s, t, "}", 0, None);
  }
}
