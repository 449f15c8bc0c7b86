/** Template tokens written out as template text, and exactly which of them are read back
    (internal/render/token.go). */
module Spelling {
  import opened Wrappers
  import opened Sections
  import S = Sections
  import opened Strings
  import opened Tokens

  // ---- Writing ----

  // What stands between the braces of a tag.
  function Inner(tok: Token): string
    requires !tok.Text?
  {
    match tok
    case Field(name, filters) => Join(filters + [name], ':')
    case Open(name, negated) => (if negated then "^" else "#") + name
    case Close(name) => "/" + name
  }

  /** A token as an author writes it. */
  function Spell(tok: Token): string {
    if tok.Text? then tok.text else "{{" + Inner(tok) + "}}"
  }

  function SpellAll(toks: seq<Token>): string {
    if toks == [] then [] else Spell(toks[0]) + SpellAll(toks[1..])
  }

  // A blank tag, which stands for itself as text.
  predicate BlankTag(t: string) {
    4 <= |t| && t[..2] == "{{" && t[|t| - 2..] == "}}" && forall k :: 2 <= k < |t| - 2 ==> Space(t[k])
  }

  // The run or tag a token is written as.
  function RawOf(tok: Token): Raw {
    if !tok.Text? then Tag(Inner(tok))
    else if BlankTag(tok.text) then Tag(tok.text[2..|tok.text| - 2])
    else Run(tok.text)
  }

  function RawsOf(toks: seq<Token>): seq<Raw> {
    if toks == [] then [] else [RawOf(toks[0])] + RawsOf(toks[1..])
  }

  // ---- Which tokens can be written ----

  predicate Tidy(p: string) { p == [] || (!Space(p[0]) && !Space(p[|p| - 1])) }

  /** A name or filter list that a tag can carry: every part trimmed and without a separator, and the
      first one not such that the tag would be a comment, a section or blank. */
  predicate Carried(parts: seq<string>) {
    && parts != [] && (forall k :: 0 <= k < |parts| ==> Tidy(parts[k]) && ':' !in parts[k])
    && if parts[0] == [] then |parts| > 1 else parts[0][0] !in {'!', '#', '^', '/'}
  }

  predicate Writable(tok: Token) {
    match tok
    case Text(text) => text != []
    case Field(name, filters) => Carried(filters + [name])
    case Open(name, _) => Tidy(name)
    case Close(name) => Tidy(name)
  }

  /** Tokens that can be written one behind the other: each can be written, no run holds an opening or
      forms one with the tag behind it, no two runs meet, and no tag holds a closing. */
  predicate Spellable(toks: seq<Token>) {
    (forall k :: 0 <= k < |toks| ==> Writable(toks[k])) && Proper(RawsOf(toks))
  }

  // ---- Trimming ----

  lemma {:induction false} TrimLeftTidy(p: string)
    requires p == [] || !Space(p[0])
    ensures TrimLeft(p) == p
  {
  }

  lemma {:induction false} TrimRightTidy(p: string)
    requires p == [] || !Space(p[|p| - 1])
    ensures TrimRight(p) == p
  {
  }

  lemma TrimTidy(p: string)
    ensures TrimSpace(p) == p <==> Tidy(p)
  {
    if Tidy(p) {
      TrimLeftTidy(p);
      TrimRightTidy(p);
    }
  }

  lemma {:induction false} TrimLeftShort(p: string)
    ensures |TrimLeft(p)| <= |p| && (|TrimLeft(p)| == |p| ==> TrimLeft(p) == p)
    ensures TrimLeft(p) == p[|p| - |TrimLeft(p)|..]
    ensures forall k :: 0 <= k < |p| - |TrimLeft(p)| ==> Space(p[k])
  {
    if p != [] && Space(p[0]) {
      TrimLeftShort(p[1..]);
      var n := |p| - |TrimLeft(p)|;
      assert p[1..][n - 1..] == p[n..];
      forall k | 0 <= k < n ensures Space(p[k]) {
        if k > 0 { assert p[1..][k - 1] == p[k]; }
      }
    }
  }

  // Trimming only shortens.
  lemma TrimShort(p: string)
    ensures |TrimSpace(p)| <= |p| && (|TrimSpace(p)| == |p| ==> TrimSpace(p) == p)
    ensures forall c :: c in TrimSpace(p) ==> c in p
  {
    TrimLeftShort(p);
    var l := TrimLeft(p);
    forall c | c in TrimSpace(p) ensures c in p {
      var k :| 0 <= k < |TrimRight(l)| && TrimRight(l)[k] == c;
      assert l[k] == c;
    }
  }

  lemma TrimBlank(p: string)
    ensures TrimSpace(p) == [] <==> forall k :: 0 <= k < |p| ==> Space(p[k])
  {
    TrimLeftShort(p);
    var l := TrimLeft(p);
    assert l != [] ==> !Space(l[0]) && l[0] == p[|p| - |l|];
  }

  // A character in front that is no space stays in front.
  lemma TrimBehind(c: char, name: string)
    requires !Space(c)
    ensures TrimSpace([c] + name) == [c] + TrimRight(name)
    ensures TrimSpace(TrimRight(name)) == TrimSpace(name)
  {
    var p := [c] + name;
    assert TrimLeft(p) == p;
    TrimRightBehind(c, name);
    TrimBoth(name);
  }

  lemma {:induction false} TrimRightBehind(c: char, name: string)
    requires !Space(c)
    ensures TrimRight([c] + name) == [c] + TrimRight(name)
  {
    var p := [c] + name;
    if name != [] && Space(name[|name| - 1]) {
      assert p[..|p| - 1] == [c] + name[..|name| - 1];
      TrimRightBehind(c, name[..|name| - 1]);
    }
  }

  // Trimming the two ends commutes.
  lemma {:induction false} TrimBoth(name: string)
    ensures TrimRight(TrimLeft(TrimRight(name))) == TrimRight(TrimLeft(name))
  {
    hide Space, TrimLeft;
    if name != [] && Space(name[|name| - 1]) {
      var init, last := name[..|name| - 1], name[|name| - 1];
      TrimBoth(init);
      assert name == init + [last];
      TrimLeftSnoc(init, last);
      TrimRightSnoc(TrimLeft(init), last);
    } else {
      TrimRightTidy(name);
    }
  }

  lemma TrimRightSnoc(p: string, c: char)
    requires Space(c)
    ensures TrimRight(p + [c]) == TrimRight(p)
  {
    assert (p + [c])[..|p|] == p;
  }

  lemma {:induction false} TrimLeftSnoc(p: string, c: char)
    requires Space(c)
    ensures TrimLeft(p + [c]) == if TrimLeft(p) == [] then [] else TrimLeft(p) + [c]
  {
    if p == [] {
      assert p + [c] == [c] && [c][1..] == [];
    } else if Space(p[0]) {
      TrimLeftSnoc(p[1..], c);
      assert (p + [c])[1..] == p[1..] + [c];
    }
  }

  // ---- What a written tag is read as ----

  // The sign a section tag begins with.
  function Sign(tok: Token): char
    requires tok.Open? || tok.Close?
  {
    if tok.Close? then '/' else if tok.negated then '^' else '#'
  }

  lemma SignedRead(tok: Token, inner: string, rest: string)
    requires tok.Open? || tok.Close?
    requires inner != [] && inner[0] != '!' && TrimSpace(inner) == [Sign(tok)] + rest
    ensures Classify(inner) == Some(tok) <==> TrimSpace(rest) == tok.name
  {
    assert ([Sign(tok)] + rest)[1..] == rest;
    hide TrimSpace, Split;
  }

  lemma SectionRead(tok: Token)
    requires tok.Open? || tok.Close?
    ensures Classify(Inner(tok)) == Some(tok) <==> Tidy(tok.name)
  {
    assert Inner(tok) == [Sign(tok)] + tok.name;
    TrimBehind(Sign(tok), tok.name);
    TrimTidy(tok.name);
    SignedRead(tok, Inner(tok), TrimRight(tok.name));
  }

  lemma {:induction false} JoinFirst(parts: seq<string>)
    requires parts != []
    ensures parts[0] != [] ==> Join(parts, ':') != [] && Join(parts, ':')[0] == parts[0][0]
    ensures parts[0] == [] && |parts| > 1 ==> Join(parts, ':') != [] && Join(parts, ':')[0] == ':'
  {
    if |parts| > 1 { JoinFirst(parts[..|parts| - 1]); }
  }

  lemma TrimmedTidy(parts: seq<string>)
    ensures Trimmed(parts) == parts <==> forall k :: 0 <= k < |parts| ==> Tidy(parts[k])
  {
    forall k | 0 <= k < |parts| ensures Trimmed(parts)[k] == parts[k] <==> Tidy(parts[k]) {
      TrimTidy(parts[k]);
    }
  }

  lemma Front(inner: string)
    requires inner != [] && !Space(inner[0])
    ensures TrimSpace(inner) != [] && TrimSpace(inner)[0] == inner[0]
  {
    assert inner == [inner[0]] + inner[1..];
    TrimBehind(inner[0], inner[1..]);
  }

  lemma FieldOfTrimmed(inner: string)
    requires inner != [] && inner[0] != '!' && TrimSpace(inner) != [] && TrimSpace(inner)[0] !in {'#', '^', '/'}
    ensures var parts := Trimmed(Split(inner, ':'));
            parts != [] && Classify(inner) == Some(Field(parts[|parts| - 1], parts[..|parts| - 1]))
  {
    hide TrimSpace, Split, Space;
  }

  // A tag that is no comment, no section and not blank holds a field.
  lemma FieldOf(inner: string)
    requires inner != [] && !Space(inner[0])
    ensures var parts := Trimmed(Split(inner, ':'));
            parts != [] && var field := Field(parts[|parts| - 1], parts[..|parts| - 1]);
            if inner[0] in {'!', '#', '^', '/'} then Classify(inner) != Some(field) else Classify(inner) == Some(field)
  {
    Front(inner);
    hide TrimSpace, Split, Space;
  }

  // What can be carried is split again where it was joined.
  lemma CarriedSplits(parts: seq<string>, inner: string)
    requires parts != [] && inner == Join(parts, ':')
    ensures Trimmed(Split(inner, ':')) == parts <==> forall k :: 0 <= k < |parts| ==> Tidy(parts[k]) && ':' !in parts[k]
  {
    var cut := Split(inner, ':');
    SplitOfJoin(parts, ':');
    TrimmedTidy(parts);
    hide Split, TrimSpace, Tidy;
    if Trimmed(cut) == parts {
      forall k | 0 <= k < |parts| ensures Tidy(parts[k]) && ':' !in parts[k] {
        assert parts[k] == TrimSpace(cut[k]);
        TrimShort(cut[k]);
        TrimIsTidy(cut[k]);
      }
    }
  }

  lemma TrimIsTidy(p: string)
    ensures Tidy(TrimSpace(p))
  {
  }

  lemma FieldRead(name: string, filters: seq<string>)
    ensures Classify(Inner(Field(name, filters))) == Some(Field(name, filters)) <==> Carried(filters + [name])
  {
    var parts, inner := filters + [name], Inner(Field(name, filters));
    assert parts[..|parts| - 1] == filters && parts[|parts| - 1] == name;
    JoinFirst(parts);
    CarriedSplits(parts, inner);
    hide Classify, Trimmed, Split, Join;
    if inner == [] || Space(inner[0]) {
      NoField(inner, parts);
    } else {
      FieldOf(inner);
      Parts(Trimmed(Split(inner, ':')), name, filters);
    }
  }

  lemma Parts(parts: seq<string>, name: string, filters: seq<string>)
    requires parts != []
    ensures parts == filters + [name] <==> parts[|parts| - 1] == name && parts[..|parts| - 1] == filters
  {
    assert parts == parts[..|parts| - 1] + [parts[|parts| - 1]];
  }

  lemma OnlyField(inner: string)
    requires Classify(inner).Some? && Classify(inner).value.Field?
    ensures var parts := Trimmed(Split(inner, ':'));
            inner != [] && parts != [] && Classify(inner) == Some(Field(parts[|parts| - 1], parts[..|parts| - 1]))
  {
    TrimBlank(inner);
    hide TrimSpace, Split, Space;
  }

  // A tag that starts with a space, or holds nothing, is not what any tidy field is written as.
  lemma NoField(inner: string, parts: seq<string>)
    requires parts != [] && inner == Join(parts, ':') && (inner == [] || Space(inner[0]))
    ensures !Carried(parts) && Classify(inner) != Some(Field(parts[|parts| - 1], parts[..|parts| - 1]))
  {
    JoinFirst(parts);
    CarriedSplits(parts, inner);
    hide Classify, Trimmed, Split, Join;
    if Classify(inner) == Some(Field(parts[|parts| - 1], parts[..|parts| - 1])) {
      OnlyField(inner);
      Parts(Trimmed(Split(inner, ':')), parts[|parts| - 1], parts[..|parts| - 1]);
      Parts(parts, parts[|parts| - 1], parts[..|parts| - 1]);
    }
  }

  lemma TagRead(tok: Token)
    requires !tok.Text?
    ensures Classify(Inner(tok)) == Some(tok) <==> Writable(tok)
  {
    if tok.Field? { FieldRead(tok.name, tok.filters); } else { SectionRead(tok); }
  }

  lemma BlankRead(t: string)
    requires BlankTag(t)
    ensures Classify(t[2..|t| - 2]) == Some(Text(t)) && t == "{{" + t[2..|t| - 2] + "}}"
  {
    var inner := t[2..|t| - 2];
    assert t == t[..2] + inner + t[|t| - 2..];
    TrimBlank(inner);
  }

  // Each writable token, written, is read as itself.
  lemma TokenRead(tok: Token)
    requires Writable(tok)
    ensures TokenOf(RawOf(tok)) == [tok]
    ensures Spell(tok) == Written(RawOf(tok))
  {
    hide Classify, Writable;
    if !tok.Text? {
      TagRead(tok);
    } else if BlankTag(tok.text) {
      BlankRead(tok.text);
    }
  }

  lemma {:induction false} TokensRead(toks: seq<Token>)
    requires forall k :: 0 <= k < |toks| ==> Writable(toks[k])
    ensures TokensOf(RawsOf(toks)) == toks && Uncut(RawsOf(toks)) == SpellAll(toks)
  {
    hide TokenOf, RawOf, Writable, Spell;
    if toks != [] {
      TokensRead(toks[1..]);
      TokenRead(toks[0]);
      var raws := RawsOf(toks);
      assert raws[0] == RawOf(toks[0]) && raws[1..] == RawsOf(toks[1..]);
      assert toks == [toks[0]] + toks[1..];
    }
  }

  // ---- Only such tokens are read back ----

  lemma {:induction false} JoinShort(parts: seq<string>)
    requires parts != []
    ensures |Join(Trimmed(parts), ':')| <= |Join(parts, ':')|
    ensures |Join(Trimmed(parts), ':')| == |Join(parts, ':')| ==> Trimmed(parts) == parts
  {
    hide TrimSpace, Join;
    var last := parts[|parts| - 1];
    TrimShort(last);
    if |parts| == 1 {
      assert Trimmed(parts) == [TrimSpace(last)] && parts == [last];
      JoinOne(last);
      JoinOne(TrimSpace(last));
    } else {
      var front := parts[..|parts| - 1];
      JoinShort(front);
      assert Trimmed(parts) == Trimmed(front) + [TrimSpace(last)] && parts == front + [last];
      hide Trimmed;
      JoinSnoc(front, ':', last);
      JoinSnoc(Trimmed(front), ':', TrimSpace(last));
    }
  }

  lemma JoinOne(p: string)
    ensures Join([p], ':') == p
  {
  }

  // A section tag is no shorter than its token written, and as long only if it is just that.
  lemma SectionShort(inner: string)
    requires Classify(inner).Some? && (Classify(inner).value.Open? || Classify(inner).value.Close?)
    ensures var tok := Classify(inner).value;
            |Inner(tok)| <= |inner| && (|Inner(tok)| == |inner| ==> Inner(tok) == inner)
  {
    var trimmed := TrimSpace(inner);
    assert trimmed != [] && Inner(Classify(inner).value) == [trimmed[0]] + TrimSpace(trimmed[1..]);
    hide Classify, TrimSpace;
    TrimShort(inner);
    TrimShort(trimmed[1..]);
    assert trimmed == [trimmed[0]] + trimmed[1..];
  }

  lemma FieldShort(inner: string)
    requires Classify(inner).Some? && Classify(inner).value.Field?
    ensures var tok := Classify(inner).value;
            |Inner(tok)| <= |inner| && (|Inner(tok)| == |inner| ==> Inner(tok) == inner)
  {
    var parts := Trimmed(Split(inner, ':'));
    OnlyField(inner);
    JoinShort(Split(inner, ':'));
    JoinOfSplit(inner, ':');
    Parts(parts, parts[|parts| - 1], parts[..|parts| - 1]);
    hide Trimmed, Split, Classify, Join;
  }

  // What a raw is read as, written again: never longer, and as long only if it is the raw itself.
  ghost predicate WrittenAs(raw: Raw) {
    var read, text := TokenOf(raw), Uncut([raw]);
    && |SpellAll(read)| <= |text|
    && (|SpellAll(read)| == |text| ==> |read| == 1 && RawOf(read[0]) == raw && Writable(read[0]))
  }

  lemma SpellOne(tok: Token)
    ensures SpellAll([tok]) == Spell(tok)
  {
    assert [tok][1..] == [];
  }

  lemma TagWritten(inner: string)
    ensures WrittenAs(Tag(inner))
  {
    UncutOne(Tag(inner));
    match Classify(inner)
    case None =>
    case Some(tok) =>
      SpellOne(tok);
      if tok.Text? {
        BlankIs(inner);
      } else {
        if tok.Field? { FieldShort(inner); } else { SectionShort(inner); }
        hide Classify;
        if |Inner(tok)| == |inner| { TagRead(tok); }
      }
  }

  lemma BlankIs(inner: string)
    requires Classify(inner).Some? && Classify(inner).value.Text?
    ensures Classify(inner) == Some(Text("{{" + inner + "}}"))
    ensures var t := "{{" + inner + "}}"; BlankTag(t) && t[2..|t| - 2] == inner
  {
    TrimBlank(inner);
    var t := "{{" + inner + "}}";
    assert t[..2] == "{{" && t[|t| - 2..] == "}}" && t[2..|t| - 2] == inner;
    forall k | 2 <= k < |t| - 2 ensures Space(t[k]) { assert t[k] == inner[k - 2]; }
  }

  lemma RunWritten(t: string)
    requires t != [] && NoPair(t, '{')
    ensures WrittenAs(Run(t))
  {
    UncutOne(Run(t));
    SpellOne(Text(t));
    NotBlank(t);
  }

  lemma NotBlank(t: string)
    requires NoPair(t, '{')
    ensures !BlankTag(t)
  {
    if 4 <= |t| {
      assert t[..2][0] == t[0] && t[..2][1] == t[1];
    }
  }

  lemma {:induction false} SpellAppend(a: seq<Token>, b: seq<Token>)
    ensures SpellAll(a + b) == SpellAll(a) + SpellAll(b)
    decreases |a|
  {
    hide Spell;
    if a == [] {
      assert a + b == b;
    } else {
      SpellAppend(a[1..], b);
      assert (a + b)[1..] == a[1..] + b;
    }
  }

  // All raws of a cut: tokens written as long as the text are the raws' own.
  lemma {:induction false} RawsWritten(raws: seq<Raw>)
    requires Proper(raws)
    ensures |SpellAll(TokensOf(raws))| <= |Uncut(raws)|
    ensures |SpellAll(TokensOf(raws))| == |Uncut(raws)| ==>
              RawsOf(TokensOf(raws)) == raws && forall k :: 0 <= k < |TokensOf(raws)| ==> Writable(TokensOf(raws)[k])
    decreases |raws|
  {
    hide Uncut, Writable, NoPair, TokenOf, RawOf, SpellAll, Proper;
    if raws == [] {
      NoneWritten();
    } else {
      var raw, rest := raws[0], raws[1..];
      ProperCons(raws);
      RawsWritten(rest);
      if raw.Run? { RunWritten(raw.text); } else { TagWritten(raw.inner); }
      assert raws == [raw] + rest;
      UncutAppend([raw], rest);
      TokensAppend([raw], rest);
      TokensOne(raw);
      SpellAppend(TokenOf(raw), TokensOf(rest));
      if |SpellAll(TokensOf(raws))| == |Uncut(raws)| {
        var tok := TokenOf(raw)[0];
        assert TokenOf(raw) == [tok];
        RawsCons(tok, TokensOf(rest));
      }
    }
  }

  lemma NoneWritten()
    ensures TokensOf([]) == [] && SpellAll([]) == [] && RawsOf([]) == [] && Uncut([]) == []
  {
  }

  lemma RawsCons(tok: Token, toks: seq<Token>)
    ensures RawsOf([tok] + toks) == [RawOf(tok)] + RawsOf(toks)
  {
    assert ([tok] + toks)[1..] == toks;
  }

  /** The spelling law: tokens written as template text are read back as themselves exactly when they can
      be written one behind the other. */
  lemma SpelledIsRead(toks: seq<Token>)
    ensures Tokenised(SpellAll(toks)) == Ok(toks) <==> Spellable(toks)
  {
    var s := SpellAll(toks);
    if Spellable(toks) {
      TokensRead(toks);
      CutOfUncut(RawsOf(toks));
    }
    if Tokenised(s) == Ok(toks) {
      var raws := Cut(s, 0).value;
      CutIsProper(s, 0);
      CutIsLossless(s, 0);
      assert s[0..] == s;
      RawsWritten(raws);
    }
  }

  /** A tree written as template text renders as the tree. */
  lemma WrittenTreeRenders<C>(nodes: seq<Node>, truthy: string -> bool, leaf: (C, Token) -> Leaf<C>, c: C)
    requires Spellable(Flatten(nodes))
    ensures var read := Tokenised(SpellAll(Flatten(nodes)));
            read.Ok? && S.Run(read.value, 0, [], truthy, leaf, c, "") ==
                        match EvalTree(nodes, true, truthy, leaf, c)
                        case Failed => Err(FilterFailed)
                        case Wrote(c', text) => Ok(Output(c', text))
  {
    SpelledIsRead(Flatten(nodes));
    ParseInvertsFlatten(nodes);
    hide Spellable, Tokenised, SpellAll, S.Run, EvalTree, Flatten, Parse;
    EvaluateIsTreeEvaluation(Flatten(nodes), truthy, leaf, c);
  }

  /** A section around a text, as written: '#' shows it exactly where the name is truthy, '^' exactly
      where it is not. */
  lemma WrittenSectionShows<C>(name: string, text: string, truthy: string -> bool, leaf: (C, Token) -> Leaf<C>, c: C)
    requires Tidy(name) && NoPair(name + "}", '}') && text != [] && NoPair(text, '{') && text[|text| - 1] != '{'
    ensures var read := Tokenised("{{#" + name + "}}" + text + "{{/" + name + "}}");
            read.Ok? && S.Run(read.value, 0, [], truthy, leaf, c, "") == Ok(Output(c, if truthy(name) then text else ""))
    ensures var read := Tokenised("{{^" + name + "}}" + text + "{{/" + name + "}}");
            read.Ok? && S.Run(read.value, 0, [], truthy, leaf, c, "") == Ok(Output(c, if truthy(name) then "" else text))
  {
    SectionShows("{{#" + name + "}}" + text + "{{/" + name + "}}", name, text, false, truthy, leaf, c);
    SectionShows("{{^" + name + "}}" + text + "{{/" + name + "}}", name, text, true, truthy, leaf, c);
  }

  lemma SectionShows<C>(s: string, name: string, text: string, negated: bool, truthy: string -> bool, leaf: (C, Token) -> Leaf<C>, c: C)
    requires Tidy(name) && NoPair(name + "}", '}') && text != [] && NoPair(text, '{') && text[|text| - 1] != '{'
    requires s == (if negated then "{{^" else "{{#") + name + "}}" + text + "{{/" + name + "}}"
    ensures Tokenised(s).Ok? && S.Run(Tokenised(s).value, 0, [], truthy, leaf, c, "") ==
                                Ok(Output(c, if truthy(name) != negated then text else ""))
  {
    var tree := [Section(name, negated, [Literal(text)])];
    SectionSpelled(s, name, text, negated);
    WrittenTreeRenders(tree, truthy, leaf, c);
    SectionValue(name, text, negated, truthy, leaf, c);
  }

  lemma SectionValue<C>(name: string, text: string, negated: bool, truthy: string -> bool, leaf: (C, Token) -> Leaf<C>, c: C)
    ensures EvalTree([Section(name, negated, [Literal(text)])], true, truthy, leaf, c) ==
            Wrote(c, if truthy(name) != negated then text else "")
  {
    var body := [Literal(text)];
    var tree := [Section(name, negated, body)];
    assert body[1..] == [] && tree[1..] == [];
    var shown := if truthy(name) != negated then text else "";
    assert shown + "" == shown;
    assert EvalTree(body, truthy(name) != negated, truthy, leaf, c) == Wrote(c, shown);
  }

  lemma SectionSpelled(s: string, name: string, text: string, negated: bool)
    requires Tidy(name) && NoPair(name + "}", '}') && text != [] && NoPair(text, '{') && text[|text| - 1] != '{'
    requires s == (if negated then "{{^" else "{{#") + name + "}}" + text + "{{/" + name + "}}"
    ensures var toks := Flatten([Section(name, negated, [Literal(text)])]);
            SpellAll(toks) == s && Spellable(toks)
  {
    hide Proper, NoPair, Tidy, BlankTag, RawOf, Spell, SpellAll, Inner, RawsOf;
    FlatSection(name, text, negated);
    ThreeWritten(Open(name, negated), Text(text), Close(name));
    TagsSpelled(name, negated);
    TextSpelled(text);
    Concatenated(if negated then "{{^" else "{{#", name, text);
    SectionWritable(name, text, negated);
  }

  lemma FlatSection(name: string, text: string, negated: bool)
    ensures Flatten([Section(name, negated, [Literal(text)])]) == [Open(name, negated), Text(text), Close(name)]
  {
    var body := [Literal(text)];
    assert body[1..] == [] && [Section(name, negated, body)][1..] == [] && Flatten(body) == [Text(text)];
  }

  lemma TagsSpelled(name: string, negated: bool)
    ensures Spell(Open(name, negated)) == (if negated then "{{^" else "{{#") + name + "}}"
    ensures Spell(Close(name)) == "{{/" + (name + "}}")
  {
    assert "{{" + "^" == "{{^" && "{{" + "#" == "{{#" && "{{" + "/" == "{{/";
    Regrouped("{{", if negated then "^" else "#", name, "}}");
    Regrouped("{{", "/", name, "}}");
  }

  lemma Regrouped(a: string, b: string, c: string, d: string)
    ensures a + (b + c) + d == (a + b) + c + d == (a + b) + (c + d)
  {
  }

  lemma TextSpelled(text: string)
    ensures Spell(Text(text)) == text
  {
  }

  lemma Concatenated(open: string, name: string, text: string)
    ensures (open + name + "}}") + text + ("{{/" + (name + "}}")) == open + name + "}}" + text + "{{/" + name + "}}"
  {
  }

  lemma SectionWritable(name: string, text: string, negated: bool)
    requires Tidy(name) && NoPair(name + "}", '}') && text != [] && NoPair(text, '{') && text[|text| - 1] != '{'
    ensures Spellable([Open(name, negated), Text(text), Close(name)])
  {
    hide Proper, NoPair, Tidy, BlankTag;
    TagProper(if negated then '^' else '#', name);
    TagProper('/', name);
    NotBlank(text);
    ThreeProper(Inner(Open(name, negated)), text, Inner(Close(name)));
    ThreeWritten(Open(name, negated), Text(text), Close(name));
  }

  lemma ThreeProper(a: string, t: string, b: string)
    requires NoPair(a + "}", '}') && NoPair(b + "}", '}') && t != [] && NoPair(t, '{') && t[|t| - 1] != '{'
    ensures Proper([Tag(a), Run(t), Tag(b)])
  {
    hide NoPair;
    assert Proper([]) && [Tag(b)][1..] == [];
    assert Proper([Tag(b)]);
    assert [Run(t), Tag(b)][1..] == [Tag(b)];
    assert Proper([Run(t), Tag(b)]);
    assert [Tag(a), Run(t), Tag(b)][1..] == [Run(t), Tag(b)];
  }

  lemma ThreeWritten(a: Token, b: Token, c: Token)
    ensures RawsOf([a, b, c]) == [RawOf(a), RawOf(b), RawOf(c)]
    ensures SpellAll([a, b, c]) == Spell(a) + Spell(b) + Spell(c)
  {
    hide RawOf, Spell, RawsOf, SpellAll;
    NoneWritten();
    assert [c] == [c] + [] && [b, c] == [b] + [c] && [a, b, c] == [a] + [b, c];
    RawsCons(c, []);
    RawsCons(b, [c]);
    RawsCons(a, [b, c]);
    SpellOne(c);
    SpellCons(b, [c]);
    SpellCons(a, [b, c]);
    Assoc(Spell(a), Spell(b), Spell(c));
  }

  lemma SpellCons(tok: Token, toks: seq<Token>)
    ensures SpellAll([tok] + toks) == Spell(tok) + SpellAll(toks)
  {
    assert ([tok] + toks)[1..] == toks;
  }

  lemma TagProper(c: char, name: string)
    requires NoPair(name + "}", '}') && c != '}'
    ensures NoPair([c] + name + "}", '}')
  {
    var t, u := name + "}", [c] + name + "}";
    forall k | 0 <= k < |u| - 1 ensures u[k] != '}' || u[k + 1] != '}' {
      if k > 0 { assert u[k] == t[k - 1] && u[k + 1] == t[k]; }
    }
  }

  // ---- White space in a tag ----

  predicate Blank(p: string) { forall k :: 0 <= k < |p| ==> Space(p[k]) }

  lemma {:induction false} TrimLeftPadded(pre: string, p: string)
    requires Blank(pre)
    ensures TrimLeft(pre + p) == TrimLeft(p)
  {
    if pre == [] {
      assert pre + p == p;
    } else {
      assert (pre + p)[1..] == pre[1..] + p;
      TrimLeftPadded(pre[1..], p);
    }
  }

  lemma {:induction false} TrimRightPadded(p: string, post: string)
    requires Blank(post)
    ensures TrimRight(p + post) == TrimRight(p)
  {
    if post == [] {
      assert p + post == p;
    } else {
      assert (p + post)[..|p + post| - 1] == p + post[..|post| - 1];
      TrimRightPadded(p, post[..|post| - 1]);
    }
  }

  /** White space around a tidy part is trimmed away. */
  lemma TrimPadded(pre: string, p: string, post: string)
    requires Blank(pre) && Blank(post) && Tidy(p)
    ensures TrimSpace(pre + p + post) == p
  {
    assert pre + p + post == pre + (p + post);
    TrimLeftPadded(pre, p + post);
    if p == [] {
      TrimBlank(post);
      assert p + post == post;
    } else {
      TrimLeftTidy(p + post);
      TrimRightPadded(p, post);
      TrimRightTidy(p);
    }
  }

  /** White space before a section's sign and around its name is no part of it. */
  lemma PaddedSection(tok: Token, pre: string, mid: string, post: string)
    requires (tok.Open? || tok.Close?) && Tidy(tok.name) && Blank(pre) && Blank(mid) && Blank(post)
    ensures Classify(pre + ([Sign(tok)] + (mid + tok.name + post))) == Some(tok)
  {
    var q := mid + tok.name + post;
    TrimPadded(mid, tok.name, post);
    hide Classify, Tidy;
    SignTrimmed(pre, Sign(tok), q);
    SignedRead(tok, pre + ([Sign(tok)] + q), TrimRight(q));
  }

  lemma SignTrimmed(pre: string, c: char, q: string)
    requires Blank(pre) && !Space(c) && c != '!'
    ensures var inner := pre + ([c] + q);
            inner != [] && inner[0] != '!' && TrimSpace(inner) == [c] + TrimRight(q) && TrimSpace(TrimRight(q)) == TrimSpace(q)
  {
    TrimLeftPadded(pre, [c] + q);
    TrimBehind(c, q);
    if pre != [] { assert (pre + ([c] + q))[0] == pre[0] && Space(pre[0]); }
  }

  /** White space around each part of a field is no part of it. */
  lemma PaddedField(name: string, filters: seq<string>, padded: seq<string>)
    requires Carried(filters + [name]) && Trimmed(padded) == filters + [name]
    requires forall k :: 0 <= k < |padded| ==> ':' !in padded[k]
    ensures Classify(Join(padded, ':')) == Some(Field(name, filters))
  {
    var parts, inner := filters + [name], Join(padded, ':');
    assert |padded| == |parts| && parts[0] == Trimmed(padded)[0] == TrimSpace(padded[0]);
    hide TrimSpace, Split, Join, Space, Trimmed, Tidy, Classify;
    SplitOfJoin(padded, ':');
    assert parts[..|parts| - 1] == filters && parts[|parts| - 1] == name;
    FrontPadded(padded, inner);
    FieldOfTrimmed(inner);
  }

  lemma FirstSolid(pre: string, x: string)
    requires Blank(pre) && x != [] && !Space(x[0])
    ensures TrimSpace(pre + x) != [] && TrimSpace(pre + x)[0] == x[0]
    ensures (pre + x)[0] == '!' ==> x[0] == '!'
  {
    TrimLeftPadded(pre, x);
    TrimLeftTidy(x);
    Front(x);
    if pre != [] { assert (pre + x)[0] == pre[0] && Space(pre[0]); }
  }

  // White space in front, and what is behind it.
  lemma Lead(p: string) returns (pre: string, l: string)
    ensures p == pre + l && Blank(pre) && (l == [] || !Space(l[0]))
  {
    TrimLeftShort(p);
    l := TrimLeft(p);
    pre := p[..|p| - |l|];
  }

  // The first character that is no space, of a tag whose parts are padded.
  lemma FrontPadded(padded: seq<string>, inner: string)
    requires padded != [] && inner == Join(padded, ':') && (TrimSpace(padded[0]) != [] || |padded| > 1)
    ensures TrimSpace(inner) != [] && inner != []
    ensures TrimSpace(inner)[0] == if TrimSpace(padded[0]) == [] then ':' else TrimSpace(padded[0])[0]
    ensures inner[0] == '!' ==> TrimSpace(padded[0]) != [] && TrimSpace(padded[0])[0] == '!'
  {
    var rest := JoinSplits(padded);
    var pre, l := Lead(padded[0]);
    TrimBlank(padded[0]);
    hide TrimSpace, Join, Blank;
    if l == [] {
      assert padded[0] == pre;
      BlankTrims(pre);
      FirstSolid(pre, rest);
      assert inner == pre + rest;
    } else {
      Assoc(pre, l, rest);
      FirstSolid(pre, l + rest);
      FirstSolid(pre, l);
    }
  }

  lemma Assoc(a: string, b: string, c: string)
    ensures a + b + c == a + (b + c)
  {
  }

  lemma BlankTrims(p: string)
    requires Blank(p)
    ensures TrimSpace(p) == []
  {
    TrimBlank(p);
  }

  // A joined list is its first part and then nothing, or a separator and more.
  lemma {:induction false} JoinSplits(parts: seq<string>) returns (rest: string)
    requires parts != []
    ensures Join(parts, ':') == parts[0] + rest && (if |parts| == 1 then rest == [] else rest != [] && rest[0] == ':')
  {
    if |parts| == 1 {
      rest := [];
    } else {
      var front := JoinSplits(parts[..|parts| - 1]);
      rest := front + ":" + parts[|parts| - 1];
    }
  }
}
