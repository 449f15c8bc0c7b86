/** The deficit scheduler that interleaves review and new cards (internal/review/interleave.go). */
module Interleaving {
  // ---- The deficit scheduler ----

  /** The exact share: how many of the first i picks go to the review source. */
  function Share(i: nat, reviews: nat, news: nat): nat {
    if reviews == 0 then 0 else if news == 0 then i else (i + 1) * reviews / (reviews + news)
  }

  function Total(reviews: nat, news: nat, limit: int): nat {
    if reviews + news > limit then (if limit > 0 then limit else 0) else reviews + news
  }

  // taken reviews against given news deviate from reviews : news by less than one card.
  predicate InProportion(taken: nat, given: nat, reviews: nat, news: nat) {
    0 < taken * news - given * reviews + news <= reviews + news
  }

  // The only count within one card of the exact share, on the scheduler's side of it.
  lemma ShareIsUnique(i: nat, reviews: nat, news: nat, taken: nat)
    requires reviews > 0 && news > 0 && taken <= i
    requires InProportion(taken, i - taken, reviews, news)
    ensures taken == Share(i, reviews, news)
  {
    var sum := reviews + news;
    assert taken * sum == taken * news + taken * reviews;
    assert (i - taken) * reviews == i * reviews - taken * reviews;
    assert (i + 1) * reviews == i * reviews + reviews;
    assert taken * sum <= (i + 1) * reviews < taken * sum + sum;
    DivIs((i + 1) * reviews, sum, taken);
  }

  lemma DivIs(a: nat, d: nat, q: nat)
    requires d > 0 && q * d <= a < q * d + d
    ensures a / d == q
  {
    var k := a / d;
    assert a == k * d + a % d;
    if k > q { MulGrows(q, k, d); }
    if q > k { MulGrows(k, q, d); }
  }

  lemma MulGrows(x: int, y: int, d: nat)
    requires x < y
    ensures x * d + d <= y * d
  {
    assert (y - x - 1) * d >= 0;
  }

  function CountTrue(picks: seq<bool>): nat {
    if picks == [] then 0
    else CountTrue(picks[..|picks| - 1]) + if picks[|picks| - 1] then 1 else 0
  }

  // The scheduler's choice between sources with r and n picks taken.
  predicate WantReview(reviews: nat, news: nat, r: nat, n: nat) {
    if r >= reviews then false
    else if n >= news then true
    else (r + 1) * news <= (n + 1) * reviews
  }

  // Its choice keeps the taken picks in proportion, also once a source has run out.
  lemma ChoiceKeepsProportion(reviews: nat, news: nat, r: nat, n: nat)
    requires r <= reviews && n <= news && r + n < reviews + news && reviews > 0 && news > 0
    requires InProportion(r, n, reviews, news)
    ensures if WantReview(reviews, news, r, n) then InProportion(r + 1, n, reviews, news)
            else InProportion(r, n + 1, reviews, news)
  {
    MulNext(r, news);
    MulNext(n, reviews);
    if r == reviews {
      MulGap(reviews, news, n);
    } else if n == news {
      MulGap(news, reviews, r);
    }
  }

  lemma MulNext(x: nat, y: nat)
    ensures (x + 1) * y == x * y + y
  {
  }

  lemma MulGap(x: nat, y: nat, z: nat)
    requires z + 1 <= y
    ensures x * y >= z * x + x && x * y == y * x
  {
    assert x * (y - z - 1) >= 0;
  }

  lemma CountTrueAppend(picks: seq<bool>, b: bool)
    ensures CountTrue(picks + [b]) == CountTrue(picks) + if b then 1 else 0
  {
    assert (picks + [b])[..|picks|] == picks;
  }

  /** Every prefix gives the review source its exact share. */
  ghost predicate Proportional(picks: seq<bool>, reviews: nat, news: nat) {
    forall i :: 0 <= i <= |picks| ==> CountTrue(picks[..i]) == Share(i, reviews, news)
  }

  lemma ProportionalStep(picks: seq<bool>, reviews: nat, news: nat, r: nat, n: nat)
    requires Proportional(picks, reviews, news)
    requires |picks| == r + n < reviews + news && r == CountTrue(picks)
    ensures r <= reviews && n <= news
    ensures Proportional(picks + [WantReview(reviews, news, r, n)], reviews, news)
    ensures CountTrue(picks + [WantReview(reviews, news, r, n)]) ==
            if WantReview(reviews, news, r, n) then r + 1 else r
  {
    hide Share, WantReview, InProportion, CountTrue;
    var want := WantReview(reviews, news, r, n);
    assert picks[..|picks|] == picks;
    ShareIsFair(|picks|, reviews, news);
    NextShare(reviews, news, r, n);
    CountTrueAppend(picks, want);
    var picks' := picks + [want];
    forall i | 0 <= i <= |picks'| ensures CountTrue(picks'[..i]) == Share(i, reviews, news) {
      if i == |picks'| {
        assert picks'[..i] == picks';
      } else {
        assert picks'[..i] == picks[..i];
      }
    }
  }

  /** Which source each pick comes from: neither source is over-drawn, and both stay in proportion
      throughout. */
  method Interleave(reviewCount: nat, newCount: nat, limit: int) returns (picks: seq<bool>)
    ensures |picks| == Total(reviewCount, newCount, limit)
    ensures Proportional(picks, reviewCount, newCount)
  {
    var total := reviewCount + newCount;
    if total > limit { total := limit; }
    picks := [];
    ShareIsFair(0, reviewCount, newCount);
    if total <= 0 { return; }
    var revTaken, newTaken := 0, 0;
    for i := 0 to total
      invariant |picks| == i == revTaken + newTaken && revTaken >= 0 && newTaken >= 0
      invariant revTaken == CountTrue(picks) && Proportional(picks, reviewCount, newCount)
    {
      var wantReview: bool;
      if revTaken >= reviewCount {
        wantReview := false;
      } else if newTaken >= newCount {
        wantReview := true;
      } else {
        wantReview := (revTaken + 1) * newCount <= (newTaken + 1) * reviewCount;
      }
      assert wantReview == WantReview(reviewCount, newCount, revTaken, newTaken);
      ProportionalStep(picks, reviewCount, newCount, revTaken, newTaken);
      picks := picks + [wantReview];
      if wantReview { revTaken := revTaken + 1; } else { newTaken := newTaken + 1; }
    }
  }

  // From one exact share to the next.
  lemma NextShare(reviews: nat, news: nat, r: nat, n: nat)
    requires r <= reviews && n <= news && r + n < reviews + news
    requires r == Share(r + n, reviews, news)
    requires reviews > 0 && news > 0 ==> InProportion(r, n, reviews, news)
    ensures Share(r + n + 1, reviews, news) == if WantReview(reviews, news, r, n) then r + 1 else r
  {
    if reviews > 0 && news > 0 {
      ChoiceKeepsProportion(reviews, news, r, n);
      ShareIsUnique(r + n + 1, reviews, news, if WantReview(reviews, news, r, n) then r + 1 else r);
    }
  }

  /** Fairness: the share never over-draws a source, stays within one card of the exact proportion,
      and each pick moves exactly one source on. */
  lemma {:induction false} ShareIsFair(i: nat, reviews: nat, news: nat)
    requires i <= reviews + news
    ensures Share(i, reviews, news) <= i
    ensures Share(i, reviews, news) <= reviews && i - Share(i, reviews, news) <= news
    ensures reviews > 0 && news > 0 ==>
              InProportion(Share(i, reviews, news), i - Share(i, reviews, news), reviews, news)
    ensures i > 0 ==> Share(i - 1, reviews, news) <= Share(i, reviews, news) <= Share(i - 1, reviews, news) + 1
  {
    if i == 0 {
      if reviews > 0 && news > 0 { ShareIsUnique(0, reviews, news, 0); }
    } else {
      ShareIsFair(i - 1, reviews, news);
      if reviews > 0 && news > 0 {
        var r := Share(i - 1, reviews, news);
        NextShare(reviews, news, r, i - 1 - r);
        ChoiceKeepsProportion(reviews, news, r, i - 1 - r);
      }
    }
  }

  /** The deviation from the exact proportion, measured over the whole prefix, is below one card. */
  lemma ShareNearExact(i: nat, reviews: nat, news: nat)
    requires i <= reviews + news && reviews > 0 && news > 0
    ensures var sum := reviews + news;
            i * reviews < Share(i, reviews, news) * sum + sum && Share(i, reviews, news) * sum < i * reviews + sum
  {
    ShareIsFair(i, reviews, news);
    var r := Share(i, reviews, news);
    assert r * (reviews + news) == r * reviews + r * news;
    assert (i - r) * reviews == i * reviews - r * reviews;
  }
}
