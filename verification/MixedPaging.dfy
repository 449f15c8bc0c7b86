/** Mixed review/new paging: two keyset cursors whose rows are interleaved page by page
    (internal/review/batch.go). */
module MixedPaging {
  import opened Wrappers
  import opened Keyset
  import I = Interleaving

  // ---- Pages ----

  datatype Cursor = AtStart | Mixed(rev: Option<Row>, new_: Option<Row>)

  datatype Card = FromReview(row: Row) | FromNew(row: Row)

  datatype Page = Page(cards: seq<Card>, next: Cursor, exhausted: bool)

  // The zero cursor is fresh for both sub-cursors.
  function CarryRev(cur: Cursor): Option<Row> { if cur.AtStart? then None else cur.rev }

  function CarryNew(cur: Cursor): Option<Row> { if cur.AtStart? then None else cur.new_ }

  function Reviews(cards: seq<Card>): seq<Row> {
    if cards == [] then []
    else
      var init, c := Reviews(cards[..|cards| - 1]), cards[|cards| - 1];
      if c.FromReview? then init + [c.row] else init
  }

  function News(cards: seq<Card>): seq<Row> {
    if cards == [] then []
    else
      var init, c := News(cards[..|cards| - 1]), cards[|cards| - 1];
      if c.FromNew? then init + [c.row] else init
  }

  function Sources(cards: seq<Card>): (picks: seq<bool>)
    ensures |picks| == |cards|
  {
    seq(|cards|, i requires 0 <= i < |cards| => cards[i].FromReview?)
  }

  // The sub-cursor after serving the first n of the fetched rows.
  function Past(rows: seq<Row>, n: nat, carried: Option<Row>): Option<Row>
    requires n <= |rows|
  {
    if n > 0 then Some(rows[n - 1]) else carried
  }

  /** What a page holds, given what the two queries returned: a full page where there are rows enough,
      each source's rows from the front and in order, the sources interleaved in proportion, and a
      cursor past the last row served from each. */
  ghost predicate PageOf(p: Page, revRows: seq<Row>, newRows: seq<Row>, cur: Cursor, limit: nat) {
    var r, n := |Reviews(p.cards)|, |News(p.cards)|;
    && r + n == |p.cards| == I.Total(|revRows|, |newRows|, limit)
    && r <= |revRows| && n <= |newRows|
    && Reviews(p.cards) == revRows[..r] && News(p.cards) == newRows[..n]
    && I.Proportional(Sources(p.cards), |revRows|, |newRows|)
    && (p.exhausted <==> |revRows| < limit && |newRows| < limit && |revRows| + |newRows| <= limit)
    && p.next == (if p.exhausted || p.cards == [] then AtStart
                  else Mixed(Past(revRows, r, CarryRev(cur)), Past(newRows, n, CarryNew(cur))))
  }

  ghost predicate IsPage(p: Page, rev: seq<Row>, new_: seq<Row>, cur: Cursor, limit: nat) {
    PageOf(p, Fetch(rev, CarryRev(cur), limit), Fetch(new_, CarryNew(cur), limit), cur, limit)
  }

  lemma ServedAppend(cards: seq<Card>, c: Card)
    ensures Reviews(cards + [c]) == if c.FromReview? then Reviews(cards) + [c.row] else Reviews(cards)
    ensures News(cards + [c]) == if c.FromNew? then News(cards) + [c.row] else News(cards)
    ensures Sources(cards + [c]) == Sources(cards) + [c.FromReview?]
  {
    assert (cards + [c])[..|cards|] == cards;
  }

  // A pick never reaches past the rows of its source.
  lemma PickInRange(picks: seq<bool>, reviews: nat, news: nat, i: nat)
    requires I.Proportional(picks, reviews, news) && i < |picks| <= reviews + news
    ensures I.CountTrue(picks[..i]) <= i
    ensures I.CountTrue(picks[..i + 1]) == I.CountTrue(picks[..i]) + if picks[i] then 1 else 0
    ensures if picks[i] then I.CountTrue(picks[..i]) < reviews else i - I.CountTrue(picks[..i]) < news
  {
    assert picks[..i + 1] == picks[..i] + [picks[i]];
    I.CountTrueAppend(picks[..i], picks[i]);
    assert I.CountTrue(picks[..i]) == I.Share(i, reviews, news);
    assert I.CountTrue(picks[..i + 1]) == I.Share(i + 1, reviews, news);
    I.ShareIsFair(i, reviews, news);
    I.ShareIsFair(i + 1, reviews, news);
  }

  // The first i picks dealt: r rows from the front of one source, n from the front of the other.
  ghost predicate Dealt(cards: seq<Card>, picks: seq<bool>, revRows: seq<Row>, newRows: seq<Row>, i: nat, r: nat, n: nat) {
    && i <= |picks| && r + n == i && r <= |revRows| && n <= |newRows|
    && r == I.CountTrue(picks[..i]) && Sources(cards) == picks[..i]
    && Reviews(cards) == revRows[..r] && News(cards) == newRows[..n]
  }

  lemma DealOne(cards: seq<Card>, picks: seq<bool>, revRows: seq<Row>, newRows: seq<Row>, i: nat, r: nat, n: nat)
    requires I.Proportional(picks, |revRows|, |newRows|) && i < |picks| <= |revRows| + |newRows|
    requires Dealt(cards, picks, revRows, newRows, i, r, n)
    ensures picks[i] ==> r < |revRows|
                         && Dealt(cards + [FromReview(revRows[r])], picks, revRows, newRows, i + 1, r + 1, n)
    ensures !picks[i] ==> n < |newRows|
                          && Dealt(cards + [FromNew(newRows[n])], picks, revRows, newRows, i + 1, r, n + 1)
  {
    PickInRange(picks, |revRows|, |newRows|, i);
    assert picks[..i + 1] == picks[..i] + [picks[i]];
    if picks[i] {
      ServedAppend(cards, FromReview(revRows[r]));
      assert revRows[..r + 1] == revRows[..r] + [revRows[r]];
    } else {
      ServedAppend(cards, FromNew(newRows[n]));
      assert newRows[..n + 1] == newRows[..n] + [newRows[n]];
    }
  }

  /** The rows a list of picks takes, dealt from the front of each source. */
  method Deal(picks: seq<bool>, revRows: seq<Row>, newRows: seq<Row>) returns (cards: seq<Card>, revTaken: nat, newTaken: nat)
    requires I.Proportional(picks, |revRows|, |newRows|) && |picks| <= |revRows| + |newRows|
    ensures Sources(cards) == picks
    ensures revTaken + newTaken == |picks| && revTaken <= |revRows| && newTaken <= |newRows|
    ensures Reviews(cards) == revRows[..revTaken] && News(cards) == newRows[..newTaken]
  {
    cards, revTaken, newTaken := [], 0, 0;
    for i := 0 to |picks|
      invariant Dealt(cards, picks, revRows, newRows, i, revTaken, newTaken)
    {
      DealOne(cards, picks, revRows, newRows, i, revTaken, newTaken);
      if picks[i] {
        cards := cards + [FromReview(revRows[revTaken])];
        revTaken := revTaken + 1;
      } else {
        cards := cards + [FromNew(newRows[newTaken])];
        newTaken := newTaken + 1;
      }
    }
    assert picks[..|picks|] == picks;
  }

  /** One page: both sources fetched past their sub-cursors, interleaved by the fetched counts. */
  method BuildMixedBatch(rev: seq<Row>, new_: seq<Row>, cur: Cursor, limit: nat) returns (p: Page)
    ensures IsPage(p, rev, new_, cur, limit)
  {
    hide Fetch, Reviews, News;
    NothingServed();
    var revRows := Fetch(rev, CarryRev(cur), limit);
    var newRows := Fetch(new_, CarryNew(cur), limit);
    var exhausted := |revRows| < limit && |newRows| < limit && |revRows| + |newRows| <= limit;
    var picks := I.Interleave(|revRows|, |newRows|, limit);
    if |picks| == 0 {
      assert Sources([]) == picks;
      return Page([], AtStart, exhausted);
    }
    var cards, revTaken, newTaken := Deal(picks, revRows, newRows);
    var next := AtStart;
    if !exhausted {
      var nextRev := if revTaken > 0 then Some(revRows[revTaken - 1]) else CarryRev(cur);
      var nextNew := if newTaken > 0 then Some(newRows[newTaken - 1]) else CarryNew(cur);
      next := Mixed(nextRev, nextNew);
    }
    p := Page(cards, next, exhausted);
  }

  // ---- Following the cursors over a static queue ----

  // How far one page moves along one source of which `at` rows were already served.
  lemma SourceAdvances(rows: seq<Row>, cur: Option<Row>, limit: nat, at: nat, n: nat)
    requires Queue(rows) && Behind(rows, cur, at) && n <= |Fetch(rows, cur, limit)|
    ensures |Fetch(rows, cur, limit)| == if |rows| - at < limit then |rows| - at else limit
    ensures at + n <= |rows| && Fetch(rows, cur, limit)[..n] == rows[at..at + n]
    ensures Behind(rows, Past(Fetch(rows, cur, limit), n, cur), at + n)
  {
    AfterBehind(rows, cur, at);
  }

  /** One page over a static queue: it serves the next rows of each source, is full unless it is the
      last, is marked exhausted only when nothing is left behind it, and its cursor stands behind
      what it served. */
  lemma PageAdvances(p: Page, rev: seq<Row>, new_: seq<Row>, cur: Cursor, limit: nat, a: nat, b: nat)
    requires Queue(rev) && Queue(new_) && limit > 0 && IsPage(p, rev, new_, cur, limit)
    requires Behind(rev, CarryRev(cur), a) && Behind(new_, CarryNew(cur), b)
    ensures var a', b' := a + |Reviews(p.cards)|, b + |News(p.cards)|;
            && a' <= |rev| && b' <= |new_|
            && Reviews(p.cards) == rev[a..a'] && News(p.cards) == new_[b..b']
            && |Reviews(p.cards)| + |News(p.cards)| == |p.cards|
            && (p.exhausted ==> a' == |rev| && b' == |new_|)
            && (!p.exhausted ==> |p.cards| == limit
                                 && Behind(rev, CarryRev(p.next), a') && Behind(new_, CarryNew(p.next), b'))
  {
    hide Queue, Behind, Fetch, Sources;
    SourceAdvances(rev, CarryRev(cur), limit, a, |Reviews(p.cards)|);
    SourceAdvances(new_, CarryNew(cur), limit, b, |News(p.cards)|);
  }

  // The cursor the n-th request goes out with.
  function CursorAt(pages: seq<Page>, n: nat): Cursor
    requires n <= |pages|
  {
    if n == 0 then AtStart else pages[n - 1].next
  }

  ghost predicate PageAt(pages: seq<Page>, i: nat, rev: seq<Row>, new_: seq<Row>, limits: seq<nat>)
    requires i < |pages| <= |limits|
  {
    IsPage(pages[i], rev, new_, CursorAt(pages, i), limits[i])
  }

  // A reader following the cursors: one page per limit it asked with, until one is exhausted.
  ghost predicate Follows(pages: seq<Page>, rev: seq<Row>, new_: seq<Row>, limits: seq<nat>) {
    && |pages| <= |limits|
    && (forall i :: 0 <= i < |pages| ==> PageAt(pages, i, rev, new_, limits))
    && (forall i :: 0 <= i < |pages| - 1 ==> !pages[i].exhausted)
    && (|pages| < |limits| ==> pages != [] && pages[|pages| - 1].exhausted)
  }

  function Served(pages: seq<Page>, n: nat): seq<Card>
    requires n <= |pages|
  {
    if n == 0 then [] else Served(pages, n - 1) + pages[n - 1].cards
  }

  function Asked(limits: seq<nat>, n: nat): nat
    requires n <= |limits|
  {
    if n == 0 then 0 else Asked(limits, n - 1) + limits[n - 1]
  }

  lemma {:induction false} ServedConcat(a: seq<Card>, b: seq<Card>)
    ensures Reviews(a + b) == Reviews(a) + Reviews(b) && News(a + b) == News(a) + News(b)
  {
    hide Reviews, News, Sources;
    if b == [] {
      NothingServed();
      assert a + b == a;
    } else {
      var init, c := b[..|b| - 1], b[|b| - 1];
      ServedConcat(a, init);
      assert a + b == (a + init) + [c] && b == init + [c];
      ServedAppend(a + init, c);
      ServedAppend(init, c);
    }
  }

  lemma NothingServed()
    ensures Reviews([]) == [] && News([]) == []
  {
  }

  // Everything served so far is a prefix of each source, and the cursor stands behind it.
  ghost predicate ServedPrefix(served: seq<Card>, rev: seq<Row>, new_: seq<Row>, cur: Cursor, more: bool, asked: nat) {
    var a, b := |Reviews(served)|, |News(served)|;
    && a <= |rev| && b <= |new_| && Reviews(served) == rev[..a] && News(served) == new_[..b]
    && if more then a + b == asked && Behind(rev, CarryRev(cur), a) && Behind(new_, CarryNew(cur), b)
       else a == |rev| && b == |new_|
  }

  lemma Joined<T>(s: seq<T>, i: nat, j: nat)
    requires i <= j <= |s|
    ensures s[..i] + s[i..j] == s[..j]
  {
  }

  lemma OneMorePage(served: seq<Card>, p: Page, rev: seq<Row>, new_: seq<Row>, cur: Cursor, asked: nat, limit: nat)
    requires Queue(rev) && Queue(new_) && limit > 0 && IsPage(p, rev, new_, cur, limit)
    requires ServedPrefix(served, rev, new_, cur, true, asked)
    ensures ServedPrefix(served + p.cards, rev, new_, p.next, !p.exhausted, asked + limit)
    ensures !p.exhausted ==> |p.cards| == limit
  {
    hide IsPage, Reviews, News, Queue, Behind, CarryRev, CarryNew;
    var a, b := |Reviews(served)|, |News(served)|;
    PageAdvances(p, rev, new_, cur, limit, a, b);
    ServedConcat(served, p.cards);
    var a', b' := a + |Reviews(p.cards)|, b + |News(p.cards)|;
    Joined(rev, a, a');
    Joined(new_, b, b');
  }

  lemma {:induction false} PagesSoFar(pages: seq<Page>, rev: seq<Row>, new_: seq<Row>, limits: seq<nat>, n: nat)
    requires Queue(rev) && Queue(new_) && Follows(pages, rev, new_, limits) && n <= |pages|
    requires forall i :: 0 <= i < |limits| ==> limits[i] > 0
    ensures ServedPrefix(Served(pages, n), rev, new_, CursorAt(pages, n), n == 0 || !pages[n - 1].exhausted,
                         Asked(limits, n))
    ensures n > 0 && !pages[n - 1].exhausted ==> |pages[n - 1].cards| == limits[n - 1]
  {
    if n > 0 {
      PagesSoFar(pages, rev, new_, limits, n - 1);
      assert PageAt(pages, n - 1, rev, new_, limits);
      OneMorePage(Served(pages, n - 1), pages[n - 1], rev, new_, CursorAt(pages, n - 1), Asked(limits, n - 1),
                  limits[n - 1]);
    }
  }

  lemma AskedForMore(served: seq<Card>, rev: seq<Row>, new_: seq<Row>, cur: Cursor, more: bool, asked: nat)
    requires ServedPrefix(served, rev, new_, cur, more, asked)
    requires more ==> asked > |rev| + |new_|
    ensures !more && Reviews(served) == rev && News(served) == new_
  {
  }

  /** Mixed paging: whatever positive limits a reader asks with, once it has asked for more cards
      than there are it has been served every review row and every new row exactly once, each in
      key order, every page before the last was full, and the last said the queue is exhausted. */
  lemma PagingServesEverything(pages: seq<Page>, rev: seq<Row>, new_: seq<Row>, limits: seq<nat>)
    requires Queue(rev) && Queue(new_) && Follows(pages, rev, new_, limits)
    requires forall i :: 0 <= i < |limits| ==> limits[i] > 0
    requires Asked(limits, |limits|) > |rev| + |new_|
    ensures Reviews(Served(pages, |pages|)) == rev && News(Served(pages, |pages|)) == new_
    ensures pages != [] && pages[|pages| - 1].exhausted
    ensures forall i :: 0 <= i < |pages| - 1 ==> |pages[i].cards| == limits[i]
  {
    PagesSoFar(pages, rev, new_, limits, |pages|);
    AskedForMore(Served(pages, |pages|), rev, new_, CursorAt(pages, |pages|),
                 pages == [] || !pages[|pages| - 1].exhausted, Asked(limits, |pages|));
    forall i | 0 <= i < |pages| - 1 ensures |pages[i].cards| == limits[i] {
      PagesSoFar(pages, rev, new_, limits, i + 1);
    }
  }
}
