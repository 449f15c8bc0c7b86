/** The template tokeniser: {{...}} tags and the literal text between them
    (internal/render/token.go). */
module Tokens {
  import opened Wrappers
  import opened Sections
  import opened Strings

  // A format cut at its tags: a run of literal text, or what stands between "{{" and "}}".
  datatype Raw = Run(text: string) | Tag(inner: string)

  // ---- Cutting ----

  predicate PairAt(s: string, k: nat, c: char) { k + 1 < |s| && s[k] == c && s[k + 1] == c }

  // The first doubled c at or after i, or the end.
  function FindPair(s: string, i: nat, c: char): (k: nat)
    requires i <= |s|
    ensures i <= k <= |s| && (k < |s| ==> PairAt(s, k, c))
    ensures forall j :: i <= j < k ==> !PairAt(s, j, c)
    decreases |s| - i
  {
    if i == |s| || PairAt(s, i, c) then i else FindPair(s, i + 1, c)
  }

  function RunOf(text: string): seq<Raw> { if text == [] then [] else [Run(text)] }

  /** The runs and tags from i on, or the offset of a tag that never ends. */
  function Cut(s: string, i: nat): Result<seq<Raw>, nat>
    requires i <= |s|
    decreases |s| - i
  {
    if i == |s| then Ok([])
    else
      var open := FindPair(s, i, '{');
      if open == |s| then Ok([Run(s[i..])])
      else
        var close := FindPair(s, open + 2, '}');
        if close == |s| then Err(open)
        else
          match Cut(s, close + 2)
          case Err(at) => Err(at)
          case Ok(rest) => Ok(RunOf(s[i..open]) + [Tag(s[open + 2..close])] + rest)
  }

  // The cut, one tag at a time.
  lemma CutNothing(s: string, i: nat)
    requires i == |s|
    ensures Cut(s, i) == Ok([])
  {
  }

  lemma CutRun(s: string, i: nat)
    requires i < |s| && FindPair(s, i, '{') == |s|
    ensures Cut(s, i) == Ok([Run(s[i..])])
  {
  }

  lemma CutStep(s: string, i: nat, open: nat, close: nat)
    requires i <= |s| && open == FindPair(s, i, '{') && open < |s| && close == FindPair(s, open + 2, '}') && close < |s|
    ensures Cut(s, close + 2).Err? ==> Cut(s, i) == Cut(s, close + 2)
    ensures Cut(s, close + 2).Ok? ==> Cut(s, i) == Ok(RunOf(s[i..open]) + [Tag(s[open + 2..close])] + Cut(s, close + 2).value)
  {
    hide FindPair, RunOf, PairAt;
    assert i < |s|;
  }

  lemma CutStops(s: string, i: nat, open: nat)
    requires i <= |s| && open == FindPair(s, i, '{') && open < |s| && FindPair(s, open + 2, '}') == |s|
    ensures Cut(s, i) == Err(open)
  {
  }

  // ---- Reading a tag ----

  function TrimLeft(s: string): (r: string)
    ensures r == [] || !Space(r[0])
  {
    if s != [] && Space(s[0]) then TrimLeft(s[1..]) else s
  }

  function TrimRight(s: string): (r: string)
    ensures r <= s && (r == [] || !Space(r[|r| - 1]))
    ensures forall k :: |r| <= k < |s| ==> Space(s[k])
  {
    if s != [] && Space(s[|s| - 1]) then TrimRight(s[..|s| - 1]) else s
  }

  function TrimSpace(s: string): (r: string)
    ensures r == [] || (!Space(r[0]) && !Space(r[|r| - 1]))
  {
    TrimRight(TrimLeft(s))
  }

  function Trimmed(parts: seq<string>): seq<string> {
    seq(|parts|, k requires 0 <= k < |parts| => TrimSpace(parts[k]))
  }

  // A tag's token; a comment has none, a blank tag is literal text.
  function Classify(inner: string): Option<Token> {
    if inner != [] && inner[0] == '!' then None
    else
      var trimmed := TrimSpace(inner);
      if trimmed == [] then Some(Text("{{" + inner + "}}"))
      else if trimmed[0] == '#' then Some(Open(TrimSpace(trimmed[1..]), false))
      else if trimmed[0] == '^' then Some(Open(TrimSpace(trimmed[1..]), true))
      else if trimmed[0] == '/' then Some(Close(TrimSpace(trimmed[1..])))
      else
        var parts := Trimmed(Split(inner, ':'));
        Some(Field(parts[|parts| - 1], parts[..|parts| - 1]))
  }

  function TokenOf(raw: Raw): seq<Token> {
    match raw
    case Run(text) => [Text(text)]
    case Tag(inner) => match Classify(inner) case None => [] case Some(tok) => [tok]
  }

  function TokensOf(raws: seq<Raw>): seq<Token> {
    if raws == [] then [] else TokenOf(raws[0]) + TokensOf(raws[1..])
  }

  lemma {:induction false} TokensAppend(a: seq<Raw>, b: seq<Raw>)
    ensures TokensOf(a + b) == TokensOf(a) + TokensOf(b)
    decreases |a|
  {
    hide TokenOf;
    if a == [] {
      assert a + b == b;
    } else {
      TokensAppend(a[1..], b);
      assert (a + b)[1..] == a[1..] + b;
    }
  }

  // Still to come from i on, with what has been read.
  ghost predicate Reads(format: string, i: nat, toks: seq<Token>)
    requires i <= |format|
  {
    match Cut(format, i)
    case Err(at) => Cut(format, 0) == Err(at)
    case Ok(raws) => Cut(format, 0).Ok? && toks + TokensOf(raws) == TokensOf(Cut(format, 0).value)
  }

  /** The tokens of a format, or the offset of its unterminated tag. */
  function Tokenised(format: string): Result<seq<Token>, nat> {
    match Cut(format, 0)
    case Err(at) => Err(at)
    case Ok(raws) => Ok(TokensOf(raws))
  }

  method Tokenise(format: string) returns (r: Result<seq<Token>, nat>)
    ensures r == Tokenised(format)
  {
    hide Cut, TokensOf, TokenOf, Classify, FindPair, Reads;
    var toks: seq<Token> := [];
    var i := 0;
    ReadsStart(format);
    while i < |format|
      invariant 0 <= i <= |format| && Reads(format, i, toks)
      decreases |format| - i
    {
      var open := FindPair(format, i, '{');
      if open == |format| {
        ReadsRun(format, i, toks);
        return Ok(toks + [Text(format[i..])]);
      }
      var close := FindPair(format, open + 2, '}');
      if close == |format| {
        ReadsStop(format, i, open, toks);
        return Err(open);
      }
      var inner := format[open + 2..close];
      ReadsTag(format, i, open, close, toks);
      ghost var before := toks;
      if open > i {
        toks := toks + [Text(format[i..open])];
      } else {
        assert toks == before + [];
      }
      toks := toks + TokenOf(Tag(inner));
      i := close + 2;
    }
    ReadsEnd(format, toks);
    return Ok(toks);
  }

  lemma ReadsStart(format: string)
    ensures Reads(format, 0, [])
  {
    if Cut(format, 0).Ok? { assert [] + TokensOf(Cut(format, 0).value) == TokensOf(Cut(format, 0).value); }
  }

  lemma ReadsRun(format: string, i: nat, toks: seq<Token>)
    requires i < |format| && FindPair(format, i, '{') == |format| && Reads(format, i, toks)
    ensures Cut(format, 0).Ok? && TokensOf(Cut(format, 0).value) == toks + [Text(format[i..])]
  {
    CutRun(format, i);
    TokensOne(Run(format[i..]));
  }

  lemma ReadsStop(format: string, i: nat, open: nat, toks: seq<Token>)
    requires i <= |format| && open == FindPair(format, i, '{') && open < |format| && FindPair(format, open + 2, '}') == |format|
    requires Reads(format, i, toks)
    ensures Cut(format, 0) == Err(open)
  {
    CutStops(format, i, open);
  }

  lemma ReadsEnd(format: string, toks: seq<Token>)
    requires Reads(format, |format|, toks)
    ensures Cut(format, 0).Ok? && TokensOf(Cut(format, 0).value) == toks
  {
    CutNothing(format, |format|);
    assert toks + TokensOf([]) == toks;
  }

  // One tag, with the run before it.
  lemma ReadsTag(s: string, i: nat, open: nat, close: nat, toks: seq<Token>)
    requires i < |s| && open == FindPair(s, i, '{') && open < |s| && close == FindPair(s, open + 2, '}') && close < |s|
    requires Reads(s, i, toks)
    ensures Reads(s, close + 2, toks + (if open > i then [Text(s[i..open])] else []) + TokenOf(Tag(s[open + 2..close])))
  {
    hide Cut, TokensOf, TokenOf, Classify, FindPair;
    CutStep(s, i, open, close);
    if Cut(s, close + 2).Ok? {
      var run, tag, rest := RunOf(s[i..open]), [Tag(s[open + 2..close])], Cut(s, close + 2).value;
      TokensAppend(run + tag, rest);
      TokensAppend(run, tag);
      TokensOne(tag[0]);
      TokensOfRun(s[i..open]);
      var a, b, c := TokensOf(run), TokensOf(tag), TokensOf(rest);
      assert toks + (a + b + c) == toks + a + b + c;
    }
  }

  lemma TokensOfRun(t: string)
    ensures TokensOf(RunOf(t)) == if t == [] then [] else [Text(t)]
  {
    if t != [] { TokensOne(Run(t)); }
  }

  lemma TokensOne(raw: Raw)
    ensures TokensOf([raw]) == TokenOf(raw)
  {
    assert [raw][1..] == [];
  }

  // ---- The cut loses nothing, and there is only one ----

  function Uncut(raws: seq<Raw>): string {
    if raws == [] then []
    else Written(raws[0]) + Uncut(raws[1..])
  }

  function Written(raw: Raw): string {
    match raw case Run(text) => text case Tag(inner) => "{{" + inner + "}}"
  }

  lemma {:induction false} UncutAppend(a: seq<Raw>, b: seq<Raw>)
    ensures Uncut(a + b) == Uncut(a) + Uncut(b)
    decreases |a|
  {
    hide Written;
    if a == [] {
      assert a + b == b;
    } else {
      UncutAppend(a[1..], b);
      assert (a + b)[1..] == a[1..] + b;
    }
  }

  /** Every character of the format is in a run or a tag; and the cut fails exactly at an opening with
      no closing behind it. */
  lemma {:induction false} CutIsLossless(s: string, i: nat)
    requires i <= |s|
    ensures match Cut(s, i)
            case Ok(raws) => Uncut(raws) == s[i..]
            case Err(at) => i <= at < |s| && PairAt(s, at, '{') && forall k :: at + 2 <= k < |s| ==> !PairAt(s, k, '}')
    decreases |s| - i
  {
    hide Cut, Uncut, FindPair, PairAt;
    if i == |s| {
      CutNothing(s, i);
      UncutNone();
    } else {
      var open := FindPair(s, i, '{');
      if open == |s| {
        CutRun(s, i);
        UncutOne(Run(s[i..]));
      } else {
        PairFits(s, open, '{');
        var close := FindPair(s, open + 2, '}');
        if close == |s| {
          CutStops(s, i, open);
        } else {
          PairFits(s, close, '}');
          CutIsLossless(s, close + 2);
          CutStep(s, i, open, close);
          if Cut(s, close + 2).Ok? { UncutTag(s, i, open, close, Cut(s, close + 2).value); }
        }
      }
    }
  }

  lemma PairFits(s: string, k: nat, c: char)
    requires PairAt(s, k, c)
    ensures k + 2 <= |s|
  {
  }

  lemma UncutOne(raw: Raw)
    ensures Uncut([raw]) == Written(raw)
  {
    assert [raw][1..] == [] && Uncut([]) == [];
  }

  lemma UncutParts(t: string, inner: string, rest: seq<Raw>)
    ensures Uncut(RunOf(t) + [Tag(inner)] + rest) == t + ("{{" + inner + "}}") + Uncut(rest)
  {
    hide Uncut;
    UncutAppend(RunOf(t) + [Tag(inner)], rest);
    UncutAppend(RunOf(t), [Tag(inner)]);
    UncutOne(Tag(inner));
    if t == [] { UncutNone(); } else { UncutOne(Run(t)); }
  }

  lemma UncutNone()
    ensures Uncut([]) == []
  {
  }

  lemma UncutTag(s: string, i: nat, open: nat, close: nat, rest: seq<Raw>)
    requires i <= open && open + 2 <= close && close + 2 <= |s| && PairAt(s, open, '{') && PairAt(s, close, '}')
    requires Uncut(rest) == s[close + 2..]
    ensures Uncut(RunOf(s[i..open]) + [Tag(s[open + 2..close])] + rest) == s[i..]
  {
    hide Uncut, RunOf;
    var t, inner := s[i..open], s[open + 2..close];
    UncutParts(t, inner, rest);
    assert s[open..open + 2] == "{{" && s[close..close + 2] == "}}";
    assert s[i..] == t + (s[open..open + 2] + inner + s[close..close + 2]) + s[close + 2..];
  }

  predicate NoPair(t: string, c: char) { forall k :: 0 <= k < |t| - 1 ==> t[k] != c || t[k + 1] != c }

  predicate ProperRaw(raw: Raw) {
    match raw
    case Run(text) => text != [] && NoPair(text, '{')
    case Tag(inner) => NoPair(inner + "}", '}')
  }

  // What may stand behind a run: a tag whose opening does not start inside it.
  predicate ProperNext(raw: Raw, next: Raw) {
    raw.Run? ==> next.Tag? && (raw.text != [] ==> raw.text[|raw.text| - 1] != '{')
  }

  // Runs without "{{", also together with the tag behind them; tags that end at their first "}}".
  predicate Proper(raws: seq<Raw>) {
    raws == [] || (ProperRaw(raws[0]) && (|raws| > 1 ==> ProperNext(raws[0], raws[1])) && Proper(raws[1..]))
  }

  lemma {:induction false} FindIs(s: string, i: nat, k: nat, c: char)
    requires i <= k <= |s| && (k < |s| ==> PairAt(s, k, c)) && forall j :: i <= j < k ==> !PairAt(s, j, c)
    ensures FindPair(s, i, c) == k
    decreases k - i
  {
    if i < k { FindIs(s, i + 1, k, c); }
  }

  // A run ends where the next tag opens, or with the text.
  lemma RunEnds(s: string, pre: string, t: string, post: string)
    requires s == pre + t + post && NoPair(t, '{')
    requires post != [] ==> PairAt(s, |pre| + |t|, '{') && (t != [] ==> t[|t| - 1] != '{')
    ensures FindPair(s, |pre|, '{') == |pre| + |t|
  {
    forall j | |pre| <= j < |pre| + |t| ensures !PairAt(s, j, '{') {
      assert s[j] == t[j - |pre|];
      if j + 1 < |pre| + |t| { assert s[j + 1] == t[j + 1 - |pre|]; }
    }
    FindIs(s, |pre|, |pre| + |t|, '{');
  }

  lemma TagEnds(s: string, pre: string, inner: string, post: string)
    requires s == pre + inner + "}}" + post && NoPair(inner + "}", '}')
    ensures FindPair(s, |pre|, '}') == |pre| + |inner|
  {
    var t := inner + "}";
    assert s[|pre| + |inner|] == '}' && s[|pre| + |inner| + 1] == '}';
    forall j | |pre| <= j < |pre| + |inner| ensures !PairAt(s, j, '}') {
      assert s[j] == t[j - |pre|] && s[j + 1] == t[j + 1 - |pre|];
    }
    FindIs(s, |pre|, |pre| + |inner|, '}');
  }

  lemma UncutCons(raws: seq<Raw>)
    requires raws != []
    ensures raws[0].Run? ==> Uncut(raws) == raws[0].text + Uncut(raws[1..])
    ensures raws[0].Tag? ==> Uncut(raws) == "{{" + (raws[0].inner + ("}}" + Uncut(raws[1..])))
  {
  }

  lemma ProperCons(raws: seq<Raw>)
    requires raws != [] && Proper(raws)
    ensures Proper(raws[1..])
    ensures raws[0].Run? ==> raws[0].text != [] && NoPair(raws[0].text, '{')
    ensures raws[0].Run? && raws[1..] != [] ==> raws[1..][0].Tag? && raws[0].text[|raws[0].text| - 1] != '{'
    ensures raws[0].Tag? ==> NoPair(raws[0].inner + "}", '}')
  {
    if |raws| > 1 { assert raws[1..][0] == raws[1]; }
  }

  lemma OpeningBehind(s: string, pre: string, rest: string)
    requires s == pre + "{{" + rest
    ensures PairAt(s, |pre|, '{')
  {
    assert s[|pre|] == '{' && s[|pre| + 1] == '{';
  }

  // A run, possibly empty, the tag behind it, and the rest.
  lemma {:induction false} CutThrough(s: string, pre: string, t: string, raws: seq<Raw>)
    requires raws != [] && raws[0].Tag? && s == pre + t + Uncut(raws) && Proper(raws)
    requires NoPair(t, '{') && (t != [] ==> t[|t| - 1] != '{')
    ensures Cut(s, |pre|) == Ok(RunOf(t) + raws)
    decreases |raws|, 0
  {
    hide Uncut, RunOf, Cut, FindPair, PairAt, NoPair, Proper;
    var inner, rest := raws[0].inner, raws[1..];
    UncutCons(raws);
    ProperCons(raws);
    var a := pre + t;
    var b := a + "{{";
    var tail := inner + ("}}" + Uncut(rest));
    assert s == a + "{{" + tail;
    OpeningBehind(s, a, tail);
    RunEnds(s, pre, t, "{{" + tail);
    assert s == b + inner + "}}" + Uncut(rest);
    TagEnds(s, b, inner, Uncut(rest));
    assert s[|pre|..|a|] == t && s[|b|..|b| + |inner|] == inner;
    CutPrinted(s, b + inner + "}}", rest);
    CutStep(s, |pre|, |a|, |b| + |inner|);
    assert raws == [Tag(inner)] + rest;
    assert RunOf(t) + [Tag(inner)] + rest == RunOf(t) + raws;
  }

  lemma CutLastRun(s: string, pre: string, t: string)
    requires s == pre + t && t != [] && NoPair(t, '{')
    ensures Cut(s, |pre|) == Ok([Run(t)])
  {
    assert s == pre + t + "";
    RunEnds(s, pre, t, "");
    assert s[|pre|..] == t;
  }

  lemma {:induction false} CutPrinted(s: string, pre: string, raws: seq<Raw>)
    requires s == pre + Uncut(raws) && Proper(raws)
    ensures Cut(s, |pre|) == Ok(raws)
    decreases |raws|, 1
  {
    hide Uncut, Cut, NoPair, Proper;
    if raws == [] {
      UncutNone();
      CutNothing(s, |pre|);
    } else {
      ProperCons(raws);
      if raws[0].Tag? {
        assert s == pre + "" + Uncut(raws);
        NoPairNone();
        CutThrough(s, pre, "", raws);
        assert RunOf("") + raws == raws;
      } else {
        var t, rest := raws[0].text, raws[1..];
        UncutCons(raws);
        assert s == pre + t + Uncut(rest);
        if rest == [] {
          UncutNone();
          assert s == pre + t;
          CutLastRun(s, pre, t);
          assert raws == [Run(t)];
        } else {
          CutThrough(s, pre, t, rest);
          assert RunOf(t) + rest == raws;
        }
      }
    }
  }

  lemma NoPairNone()
    ensures NoPair("", '{')
  {
  }

  /** The cut is the only one: runs and tags written out are cut back into themselves. */
  lemma CutOfUncut(raws: seq<Raw>)
    requires Proper(raws)
    ensures Cut(Uncut(raws), 0) == Ok(raws)
  {
    assert Uncut(raws) == "" + Uncut(raws);
    CutPrinted(Uncut(raws), "", raws);
  }

  /** And whatever is cut is proper. */
  lemma {:induction false} CutIsProper(s: string, i: nat)
    requires i <= |s| && Cut(s, i).Ok?
    ensures Proper(Cut(s, i).value)
    decreases |s| - i
  {
    hide Cut, Proper, FindPair, PairAt, NoPair;
    if i == |s| {
      CutNothing(s, i);
      ProperNone();
    } else {
      var open := FindPair(s, i, '{');
      RunClear(s, i, open);
      if open == |s| {
        CutRun(s, i);
        ProperLast(s[i..]);
      } else {
        PairFits(s, open, '{');
        var close := FindPair(s, open + 2, '}');
        if close == |s| {
          CutStops(s, i, open);
        } else {
          PairFits(s, close, '}');
          TagClear(s, open + 2, close);
          CutStep(s, i, open, close);
          CutIsProper(s, close + 2);
          ProperThrough(s[i..open], s[open + 2..close], Cut(s, close + 2).value);
        }
      }
    }
  }

  lemma ProperNone()
    ensures Proper([])
  {
  }

  lemma ProperLast(t: string)
    requires t != [] && NoPair(t, '{')
    ensures Proper([Run(t)])
  {
    hide NoPair;
    assert [Run(t)][1..] == [];
  }

  lemma RunClear(s: string, i: nat, open: nat)
    requires i <= |s| && open == FindPair(s, i, '{')
    ensures NoPair(s[i..open], '{') && (i < open < |s| ==> s[open - 1] != '{') && s[i..|s|] == s[i..]
  {
    var t := s[i..open];
    forall k | 0 <= k < |t| - 1 ensures t[k] != '{' || t[k + 1] != '{' {
      assert !PairAt(s, i + k, '{');
    }
    if i < open < |s| { assert !PairAt(s, open - 1, '{') && PairAt(s, open, '{'); }
  }

  lemma TagClear(s: string, i: nat, close: nat)
    requires i <= |s| && close == FindPair(s, i, '}') && close < |s|
    ensures NoPair(s[i..close] + "}", '}')
  {
    var t := s[i..close] + "}";
    forall k | 0 <= k < |t| - 1 ensures t[k] != '}' || t[k + 1] != '}' {
      assert !PairAt(s, i + k, '}') && PairAt(s, close, '}');
    }
  }

  lemma ProperThrough(t: string, inner: string, rest: seq<Raw>)
    requires NoPair(t, '{') && (t != [] ==> t[|t| - 1] != '{') && NoPair(inner + "}", '}') && Proper(rest)
    ensures Proper(RunOf(t) + [Tag(inner)] + rest)
  {
    hide NoPair;
    var tail := [Tag(inner)] + rest;
    assert tail[1..] == rest && Proper(tail);
    if t == [] {
      assert RunOf(t) + [Tag(inner)] + rest == tail;
    } else {
      var all := [Run(t)] + tail;
      assert all[1..] == tail && RunOf(t) + [Tag(inner)] + rest == all;
    }
  }
}
