/** Template sections: a flat stack machine over the tokens, and the tree of sections it evaluates
    (internal/render/render.go, internal/render/token.go). */
module Sections {
  import opened Wrappers

  datatype Token =
    | Text(text: string)
    | Field(name: string, filters: seq<string>)
    | Open(name: string, negated: bool)
    | Close(name: string)

  // ErrSectionMismatch, ErrUnclosedSection, and a filter that failed.
  datatype Error = Mismatch | Unclosed | FilterFailed

  // What resolving one field writes; C is the render context it may change.
  datatype Leaf<C> = Wrote(context: C, text: string) | Failed

  datatype Output<C> = Output(context: C, text: string)

  datatype Frame = Frame(name: string, emitting: bool)

  // ---- The machine ----

  predicate AllEmitting(stack: seq<Frame>) { forall k :: 0 <= k < |stack| ==> stack[k].emitting }

  function Opened(stack: seq<Frame>, tok: Token, truthy: string -> bool): seq<Frame>
    requires tok.Open?
  {
    stack + [Frame(tok.name, AllEmitting(stack) && truthy(tok.name) != tok.negated)]
  }

  function Run<C>(toks: seq<Token>, i: nat, stack: seq<Frame>, truthy: string -> bool, leaf: (C, Token) -> Leaf<C>, c: C, out: string): Result<Output<C>, Error>
    requires i <= |toks|
    decreases |toks| - i
  {
    if i == |toks| then if stack == [] then Ok(Output(c, out)) else Err(Unclosed)
    else
      match toks[i]
      case Text(text) => Run(toks, i + 1, stack, truthy, leaf, c, if AllEmitting(stack) then out + text else out)
      case Open(_, _) => Run(toks, i + 1, Opened(stack, toks[i], truthy), truthy, leaf, c, out)
      case Close(name) =>
        if stack == [] || stack[|stack| - 1].name != name then Err(Mismatch)
        else Run(toks, i + 1, stack[..|stack| - 1], truthy, leaf, c, out)
      case Field(_, _) =>
        if !AllEmitting(stack) then Run(toks, i + 1, stack, truthy, leaf, c, out)
        else
          match leaf(c, toks[i])
          case Failed => Err(FilterFailed)
          case Wrote(c', text) => Run(toks, i + 1, stack, truthy, leaf, c', out + text)
  }

  method Emitting(stack: seq<Frame>) returns (emitting: bool)
    ensures emitting == AllEmitting(stack)
  {
    for k := 0 to |stack|
      invariant forall j :: 0 <= j < k ==> stack[j].emitting
    {
      if !stack[k].emitting { return false; }
    }
    return true;
  }

  /** evaluate: one pass over the tokens with a stack of open sections. */
  method Evaluate<C>(toks: seq<Token>, truthy: string -> bool, leaf: (C, Token) -> Leaf<C>, c0: C) returns (r: Result<Output<C>, Error>)
    ensures r == Run(toks, 0, [], truthy, leaf, c0, "")
  {
    var stack: seq<Frame>, c, out := [], c0, "";
    for i := 0 to |toks|
      invariant Run(toks, i, stack, truthy, leaf, c, out) == Run(toks, 0, [], truthy, leaf, c0, "")
    {
      var tok := toks[i];
      match tok {
        case Text(text) =>
          var emitting := Emitting(stack);
          if emitting { out := out + text; }
        case Open(name, negated) =>
          var parentEmitting := Emitting(stack);
          var t := truthy(name);
          if negated { t := !t; }
          stack := stack + [Frame(name, parentEmitting && t)];
        case Close(name) =>
          if |stack| == 0 { return Err(Mismatch); }
          var top := stack[|stack| - 1];
          if top.name != name { return Err(Mismatch); }
          stack := stack[..|stack| - 1];
        case Field(_, _) =>
          var emitting := Emitting(stack);
          if emitting {
            var v := leaf(c, tok);
            if v.Failed? { return Err(FilterFailed); }
            c, out := v.context, out + v.text;
          }
      }
    }
    if |stack| > 0 { return Err(Unclosed); }
    r := Ok(Output(c, out));
  }

  // ---- The tree ----

  datatype Node = Literal(text: string) | Value(name: string, filters: seq<string>) | Section(name: string, negated: bool, body: seq<Node>)

  function FlattenNode(node: Node): seq<Token>
    decreases node, 0
  {
    match node
    case Literal(text) => [Text(text)]
    case Value(name, filters) => [Field(name, filters)]
    case Section(name, negated, body) => [Open(name, negated)] + Flatten(body) + [Close(name)]
  }

  /** The tokens of properly nested, name-matched sections. */
  function Flatten(nodes: seq<Node>): seq<Token>
    decreases nodes, 1
  {
    if nodes == [] then [] else FlattenNode(nodes[0]) + Flatten(nodes[1..])
  }

  function EvalNode<C>(node: Node, on: bool, truthy: string -> bool, leaf: (C, Token) -> Leaf<C>, c: C): Leaf<C>
    decreases node, 0
  {
    match node
    case Literal(text) => Wrote(c, if on then text else "")
    case Value(name, filters) => if on then leaf(c, Field(name, filters)) else Wrote(c, "")
    case Section(name, negated, body) => EvalTree(body, on && truthy(name) != negated, truthy, leaf, c)
  }

  /** Recursive evaluation: a section shows its body exactly when its own condition and all conditions
      around it hold. */
  function EvalTree<C>(nodes: seq<Node>, on: bool, truthy: string -> bool, leaf: (C, Token) -> Leaf<C>, c: C): Leaf<C>
    decreases nodes, 1
  {
    if nodes == [] then Wrote(c, "")
    else
      match EvalNode(nodes[0], on, truthy, leaf, c)
      case Failed => Failed
      case Wrote(c', text) =>
        match EvalTree(nodes[1..], on, truthy, leaf, c')
        case Failed => Failed
        case Wrote(c'', rest) => Wrote(c'', text + rest)
  }

  // ---- The parser: the machine's stack with the nodes read so far ----

  datatype Pending = Pending(before: seq<Node>, name: string, negated: bool)

  function Build(toks: seq<Token>, i: nat, stack: seq<Pending>, current: seq<Node>): Result<seq<Node>, Error>
    requires i <= |toks|
    decreases |toks| - i
  {
    if i == |toks| then if stack == [] then Ok(current) else Err(Unclosed)
    else
      match toks[i]
      case Text(text) => Build(toks, i + 1, stack, current + [Literal(text)])
      case Field(name, filters) => Build(toks, i + 1, stack, current + [Value(name, filters)])
      case Open(name, negated) => Build(toks, i + 1, stack + [Pending(current, name, negated)], [])
      case Close(name) =>
        if stack == [] || stack[|stack| - 1].name != name then Err(Mismatch)
        else
          var top := stack[|stack| - 1];
          Build(toks, i + 1, stack[..|stack| - 1], top.before + [Section(top.name, top.negated, current)])
  }

  function Parse(toks: seq<Token>): Result<seq<Node>, Error> { Build(toks, 0, [], []) }

  lemma {:induction false} FlattenAppend(a: seq<Node>, node: Node)
    ensures Flatten(a + [node]) == Flatten(a) + FlattenNode(node)
    decreases |a|
  {
    if a == [] {
      assert (a + [node])[1..] == [];
    } else {
      FlattenAppend(a[1..], node);
      assert (a + [node])[1..] == a[1..] + [node];
    }
  }

  // The tokens already read.
  function ReadSoFar(stack: seq<Pending>, current: seq<Node>): seq<Token> {
    if stack == [] then Flatten(current)
    else
      var top := stack[|stack| - 1];
      ReadSoFar(stack[..|stack| - 1], top.before) + [Open(top.name, top.negated)] + Flatten(current)
  }

  lemma {:induction false} BuildIsSound(toks: seq<Token>, i: nat, stack: seq<Pending>, current: seq<Node>)
    requires i <= |toks| && ReadSoFar(stack, current) == toks[..i]
    ensures Build(toks, i, stack, current).Ok? ==> Flatten(Build(toks, i, stack, current).value) == toks
    decreases |toks| - i
  {
    if i < |toks| {
      assert toks[..i + 1] == toks[..i] + [toks[i]];
      match toks[i]
      case Text(text) =>
        ReadNode(stack, current, Literal(text));
        BuildIsSound(toks, i + 1, stack, current + [Literal(text)]);
      case Field(name, filters) =>
        ReadNode(stack, current, Value(name, filters));
        BuildIsSound(toks, i + 1, stack, current + [Value(name, filters)]);
      case Open(name, negated) =>
        var stack' := stack + [Pending(current, name, negated)];
        assert stack'[..|stack'| - 1] == stack;
        BuildIsSound(toks, i + 1, stack', []);
      case Close(name) =>
        if stack != [] && stack[|stack| - 1].name == name {
          var top := stack[|stack| - 1];
          ReadSection(stack, current, toks[..i]);
          BuildIsSound(toks, i + 1, stack[..|stack| - 1], top.before + [Section(top.name, top.negated, current)]);
        }
    } else {
      assert toks[..i] == toks;
    }
  }

  lemma ReadNode(stack: seq<Pending>, current: seq<Node>, node: Node)
    ensures ReadSoFar(stack, current + [node]) == ReadSoFar(stack, current) + FlattenNode(node)
  {
    FlattenAppend(current, node);
  }

  lemma ReadSection(stack: seq<Pending>, current: seq<Node>, read: seq<Token>)
    requires stack != [] && ReadSoFar(stack, current) == read
    ensures var top := stack[|stack| - 1];
            ReadSoFar(stack[..|stack| - 1], top.before + [Section(top.name, top.negated, current)]) == read + [Close(top.name)]
  {
    var top := stack[|stack| - 1];
    ReadNode(stack[..|stack| - 1], top.before, Section(top.name, top.negated, current));
  }

  // Over the tokens of a tree the parser appends its nodes.
  lemma {:induction false} BuildOnTree(toks: seq<Token>, pre: seq<Token>, nodes: seq<Node>, post: seq<Token>, stack: seq<Pending>, current: seq<Node>)
    requires toks == pre + Flatten(nodes) + post
    ensures Build(toks, |pre|, stack, current) == Build(toks, |pre| + |Flatten(nodes)|, stack, current + nodes)
    decreases nodes, 1
  {
    if nodes == [] {
      assert current + nodes == current;
    } else {
      var head, rest := nodes[0], nodes[1..];
      var mid := pre + FlattenNode(head);
      assert toks == mid + Flatten(rest) + post;
      assert toks == pre + FlattenNode(head) + (Flatten(rest) + post);
      BuildOnNode(toks, pre, head, Flatten(rest) + post, stack, current);
      BuildOnTree(toks, mid, rest, post, stack, current + [head]);
      assert current + [head] + rest == current + nodes;
    }
  }

  lemma {:induction false} BuildOnNode(toks: seq<Token>, pre: seq<Token>, node: Node, post: seq<Token>, stack: seq<Pending>, current: seq<Node>)
    requires toks == pre + FlattenNode(node) + post
    ensures Build(toks, |pre|, stack, current) == Build(toks, |pre| + |FlattenNode(node)|, stack, current + [node])
    decreases node, 0
  {
    assert toks[|pre|] == FlattenNode(node)[0];
    if node.Section? {
      var open, body := [Open(node.name, node.negated)], Flatten(node.body);
      var stack' := stack + [Pending(current, node.name, node.negated)];
      assert toks == (pre + open) + body + ([Close(node.name)] + post);
      BuildOnTree(toks, pre + open, node.body, [Close(node.name)] + post, stack', []);
      assert [] + node.body == node.body;
      assert toks[|pre + open| + |body|] == Close(node.name);
      assert stack'[..|stack'| - 1] == stack;
    }
  }

  /** Tokens and trees correspond one to one: parsing a flattened tree gives it back, and whatever
      parses flattens back to its tokens. */
  lemma ParseInvertsFlatten(nodes: seq<Node>)
    ensures Parse(Flatten(nodes)) == Ok(nodes)
  {
    var toks := Flatten(nodes);
    assert toks == [] + toks + [];
    BuildOnTree(toks, [], nodes, [], [], []);
    assert [] + nodes == nodes;
  }

  lemma FlattenInvertsParse(toks: seq<Token>)
    ensures Parse(toks).Ok? ==> Flatten(Parse(toks).value) == toks
  {
    assert toks[..0] == [];
    BuildIsSound(toks, 0, [], []);
  }

  // ---- The machine evaluates the tree ----

  lemma {:induction false} RunOnTree<C>(toks: seq<Token>, pre: seq<Token>, nodes: seq<Node>, post: seq<Token>, stack: seq<Frame>, truthy: string -> bool, leaf: (C, Token) -> Leaf<C>, c: C, out: string)
    requires toks == pre + Flatten(nodes) + post
    ensures Run(toks, |pre|, stack, truthy, leaf, c, out) ==
            match EvalTree(nodes, AllEmitting(stack), truthy, leaf, c)
            case Failed => Err(FilterFailed)
            case Wrote(c', text) => Run(toks, |pre| + |Flatten(nodes)|, stack, truthy, leaf, c', out + text)
    decreases nodes, 1
  {
    hide Run, EvalNode, FlattenNode, AllEmitting;
    if nodes == [] {
      assert out + "" == out;
    } else {
      var head, rest := nodes[0], nodes[1..];
      var mid := pre + FlattenNode(head);
      assert toks == mid + Flatten(rest) + post;
      assert toks == pre + FlattenNode(head) + (Flatten(rest) + post);
      RunOnNode(toks, pre, head, Flatten(rest) + post, stack, truthy, leaf, c, out);
      match EvalNode(head, AllEmitting(stack), truthy, leaf, c)
      case Failed =>
      case Wrote(c', text) =>
        RunOnTree(toks, mid, rest, post, stack, truthy, leaf, c', out + text);
        match EvalTree(rest, AllEmitting(stack), truthy, leaf, c')
        case Failed =>
        case Wrote(c'', more) => assert out + text + more == out + (text + more);
    }
  }

  lemma {:induction false} RunOnNode<C>(toks: seq<Token>, pre: seq<Token>, node: Node, post: seq<Token>, stack: seq<Frame>, truthy: string -> bool, leaf: (C, Token) -> Leaf<C>, c: C, out: string)
    requires toks == pre + FlattenNode(node) + post
    ensures Run(toks, |pre|, stack, truthy, leaf, c, out) ==
            match EvalNode(node, AllEmitting(stack), truthy, leaf, c)
            case Failed => Err(FilterFailed)
            case Wrote(c', text) => Run(toks, |pre| + |FlattenNode(node)|, stack, truthy, leaf, c', out + text)
    decreases node, 0
  {
    assert toks[|pre|] == FlattenNode(node)[0];
    assert out + "" == out;
    if node.Section? {
      var open, body := [Open(node.name, node.negated)], Flatten(node.body);
      var stack' := Opened(stack, open[0], truthy);
      OpenedEmits(stack, open[0], truthy);
      assert toks == (pre + open) + body + ([Close(node.name)] + post);
      RunOnTree(toks, pre + open, node.body, [Close(node.name)] + post, stack', truthy, leaf, c, out);
      assert toks[|pre + open| + |body|] == Close(node.name);
      assert stack'[..|stack'| - 1] == stack;
    }
  }

  // A frame already says whether everything around it shows.
  lemma OpenedEmits(stack: seq<Frame>, tok: Token, truthy: string -> bool)
    requires tok.Open?
    ensures AllEmitting(Opened(stack, tok, truthy)) <==> AllEmitting(stack) && truthy(tok.name) != tok.negated
  {
    var stack' := Opened(stack, tok, truthy);
    assert forall k :: 0 <= k < |stack| ==> stack'[k] == stack[k];
    assert stack'[|stack|].emitting <==> AllEmitting(stack) && truthy(tok.name) != tok.negated;
  }

  predicate SameNames(stack: seq<Frame>, pending: seq<Pending>) {
    |stack| == |pending| && forall k :: 0 <= k < |stack| ==> stack[k].name == pending[k].name
  }

  // Where the parser stops, the machine stops, unless a filter failed before.
  lemma {:induction false} RunStops<C>(toks: seq<Token>, i: nat, stack: seq<Frame>, pending: seq<Pending>, current: seq<Node>, truthy: string -> bool, leaf: (C, Token) -> Leaf<C>, c: C, out: string)
    requires i <= |toks| && SameNames(stack, pending)
    ensures Build(toks, i, pending, current).Err? ==>
              Run(toks, i, stack, truthy, leaf, c, out) in {Err(Build(toks, i, pending, current).error), Err(FilterFailed)}
    ensures Build(toks, i, pending, current).Err? && (forall c, tok :: leaf(c, tok).Wrote?) ==>
              Run(toks, i, stack, truthy, leaf, c, out) == Err(Build(toks, i, pending, current).error)
    decreases |toks| - i
  {
    if i < |toks| {
      match toks[i]
      case Text(text) =>
        RunStops(toks, i + 1, stack, pending, current + [Literal(text)], truthy, leaf, c, if AllEmitting(stack) then out + text else out);
      case Field(name, filters) =>
        if !AllEmitting(stack) {
          RunStops(toks, i + 1, stack, pending, current + [Value(name, filters)], truthy, leaf, c, out);
        } else if leaf(c, toks[i]).Wrote? {
          RunStops(toks, i + 1, stack, pending, current + [Value(name, filters)], truthy, leaf, leaf(c, toks[i]).context, out + leaf(c, toks[i]).text);
        }
      case Open(name, negated) =>
        RunStops(toks, i + 1, Opened(stack, toks[i], truthy), pending + [Pending(current, name, negated)], [], truthy, leaf, c, out);
      case Close(name) =>
        if stack != [] && stack[|stack| - 1].name == name {
          var top := pending[|pending| - 1];
          RunStops(toks, i + 1, stack[..|stack| - 1], pending[..|pending| - 1], top.before + [Section(top.name, top.negated, current)], truthy, leaf, c, out);
        }
    }
  }

  /** The machine refines the tree: on tokens that parse it is recursive evaluation of their tree; on
      tokens that do not it fails, whatever the note's values, and with the parser's error unless a
      filter failed first. */
  lemma EvaluateIsTreeEvaluation<C>(toks: seq<Token>, truthy: string -> bool, leaf: (C, Token) -> Leaf<C>, c: C)
    ensures match Parse(toks)
            case Err(e) => Run(toks, 0, [], truthy, leaf, c, "") in {Err(e), Err(FilterFailed)}
            case Ok(tree) =>
              Run(toks, 0, [], truthy, leaf, c, "") ==
              match EvalTree(tree, true, truthy, leaf, c)
              case Failed => Err(FilterFailed)
              case Wrote(c', text) => Ok(Output(c', text))
  {
    match Parse(toks)
    case Err(e) => RunStops(toks, 0, [], [], [], truthy, leaf, c, "");
    case Ok(tree) =>
      FlattenInvertsParse(toks);
      assert toks == [] + Flatten(tree) + [];
      RunOnTree(toks, [], tree, [], [], truthy, leaf, c, "");
      match EvalTree(tree, true, truthy, leaf, c)
      case Failed =>
      case Wrote(c', text) => assert "" + text == text;
  }

  /** While no filter fails, whether a template renders at all depends on its tokens alone: it succeeds
      exactly when they are the tokens of a tree. */
  lemma SucceedsIffNested<C(!new)>(toks: seq<Token>, truthy: string -> bool, leaf: (C, Token) -> Leaf<C>, c: C)
    requires forall c, tok :: leaf(c, tok).Wrote?
    ensures Run(toks, 0, [], truthy, leaf, c, "").Ok? <==> exists tree :: Flatten(tree) == toks
    ensures Run(toks, 0, [], truthy, leaf, c, "").Err? ==>
              Parse(toks).Err? && Run(toks, 0, [], truthy, leaf, c, "") == Err(Parse(toks).error)
  {
    EvaluateIsTreeEvaluation(toks, truthy, leaf, c);
    FlattenInvertsParse(toks);
    if Parse(toks).Ok? {
      NeverFails(Parse(toks).value, true, truthy, leaf, c);
    } else {
      RunStops(toks, 0, [], [], [], truthy, leaf, c, "");
      forall tree ensures Flatten(tree) != toks {
        ParseInvertsFlatten(tree);
      }
    }
  }

  lemma {:induction false} NeverFails<C(!new)>(nodes: seq<Node>, on: bool, truthy: string -> bool, leaf: (C, Token) -> Leaf<C>, c: C)
    requires forall c, tok :: leaf(c, tok).Wrote?
    ensures EvalTree(nodes, on, truthy, leaf, c).Wrote?
    decreases nodes
  {
    if nodes != [] {
      if nodes[0].Section? {
        NeverFails(nodes[0].body, on && truthy(nodes[0].name) != nodes[0].negated, truthy, leaf, c);
      }
      NeverFails(nodes[1..], on, truthy, leaf, EvalNode(nodes[0], on, truthy, leaf, c).context);
    }
  }

  // ---- Which leaves appear ----

  datatype Condition = Condition(name: string, negated: bool)

  // A leaf with the conditions of all sections around it.
  datatype Placed = Placed(tok: Token, around: seq<Condition>)

  predicate Holds(around: seq<Condition>, truthy: string -> bool) {
    forall k :: 0 <= k < |around| ==> truthy(around[k].name) != around[k].negated
  }

  function LeavesOf(node: Node, around: seq<Condition>): seq<Placed>
    decreases node, 0
  {
    match node
    case Literal(text) => [Placed(Text(text), around)]
    case Value(name, filters) => [Placed(Field(name, filters), around)]
    case Section(name, negated, body) => Leaves(body, around + [Condition(name, negated)])
  }

  function Leaves(nodes: seq<Node>, around: seq<Condition>): seq<Placed>
    decreases nodes, 1
  {
    if nodes == [] then [] else LeavesOf(nodes[0], around) + Leaves(nodes[1..], around)
  }

  function WriteLeaf<C>(tok: Token, leaf: (C, Token) -> Leaf<C>, c: C): Leaf<C> {
    if tok.Text? then Wrote(c, tok.text) else leaf(c, tok)
  }

  // The leaves whose conditions all hold, written one after the other.
  function WriteShown<C>(leaves: seq<Placed>, truthy: string -> bool, leaf: (C, Token) -> Leaf<C>, c: C): Leaf<C> {
    if leaves == [] then Wrote(c, "")
    else
      match if Holds(leaves[0].around, truthy) then WriteLeaf(leaves[0].tok, leaf, c) else Wrote(c, "")
      case Failed => Failed
      case Wrote(c', text) =>
        match WriteShown(leaves[1..], truthy, leaf, c')
        case Failed => Failed
        case Wrote(c'', rest) => Wrote(c'', text + rest)
  }

  function Then<C>(a: Leaf<C>, b: Leaf<C>): Leaf<C> {
    if a.Failed? || b.Failed? then Failed else Wrote(b.context, a.text + b.text)
  }

  lemma {:induction false} WriteShownAppend<C>(a: seq<Placed>, b: seq<Placed>, truthy: string -> bool, leaf: (C, Token) -> Leaf<C>, c: C)
    ensures var first := WriteShown(a, truthy, leaf, c);
            WriteShown(a + b, truthy, leaf, c) ==
            if first.Failed? then Failed else Then(first, WriteShown(b, truthy, leaf, first.context))
    decreases |a|
  {
    if a == [] {
      assert a + b == b;
      var rest := WriteShown(b, truthy, leaf, c);
      assert rest.Wrote? ==> "" + rest.text == rest.text;
    } else {
      assert (a + b)[1..] == a[1..] + b;
      var one := if Holds(a[0].around, truthy) then WriteLeaf(a[0].tok, leaf, c) else Wrote(c, "");
      if one.Wrote? {
        WriteShownAppend(a[1..], b, truthy, leaf, one.context);
        var more := WriteShown(a[1..], truthy, leaf, one.context);
        if more.Wrote? {
          var rest := WriteShown(b, truthy, leaf, more.context);
          assert rest.Wrote? ==> one.text + more.text + rest.text == one.text + (more.text + rest.text);
        }
      }
    }
  }

  /** A leaf appears exactly when every enclosing condition holds: evaluating the tree is writing, in
      order, the leaves whose conditions all do. */
  lemma {:induction false} TreeShowsItsLeaves<C>(nodes: seq<Node>, around: seq<Condition>, truthy: string -> bool, leaf: (C, Token) -> Leaf<C>, c: C)
    ensures EvalTree(nodes, Holds(around, truthy), truthy, leaf, c) == WriteShown(Leaves(nodes, around), truthy, leaf, c)
    decreases nodes, 1
  {
    if nodes != [] {
      NodeShowsItsLeaves(nodes[0], around, truthy, leaf, c);
      WriteShownAppend(LeavesOf(nodes[0], around), Leaves(nodes[1..], around), truthy, leaf, c);
      var one := EvalNode(nodes[0], Holds(around, truthy), truthy, leaf, c);
      if one.Wrote? { TreeShowsItsLeaves(nodes[1..], around, truthy, leaf, one.context); }
    }
  }

  lemma {:induction false} NodeShowsItsLeaves<C>(node: Node, around: seq<Condition>, truthy: string -> bool, leaf: (C, Token) -> Leaf<C>, c: C)
    ensures EvalNode(node, Holds(around, truthy), truthy, leaf, c) == WriteShown(LeavesOf(node, around), truthy, leaf, c)
    decreases node, 0
  {
    if node.Section? {
      var inside := around + [Condition(node.name, node.negated)];
      HoldsInside(around, Condition(node.name, node.negated), truthy);
      TreeShowsItsLeaves(node.body, inside, truthy, leaf, c);
    } else {
      var tok := if node.Literal? then Text(node.text) else Field(node.name, node.filters);
      var one := if Holds(around, truthy) then WriteLeaf(tok, leaf, c) else Wrote(c, "");
      assert one.Wrote? ==> one.text + "" == one.text;
      assert [Placed(tok, around)][1..] == [];
    }
  }

  lemma HoldsInside(around: seq<Condition>, own: Condition, truthy: string -> bool)
    ensures Holds(around + [own], truthy) <==> Holds(around, truthy) && truthy(own.name) != own.negated
  {
    var inside := around + [own];
    assert forall k :: 0 <= k < |around| ==> inside[k] == around[k];
    assert inside[|around|] == own;
  }
}
