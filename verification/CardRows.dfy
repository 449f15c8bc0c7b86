/** The cards table: its rows, its UNIQUE constraint and its queue positions
    (migrations/00009_cards.sql, internal/db/cards.sql.go). */
module CardRows {
  import opened Wrappers
  import Rows

  datatype Card = Card(note: int, template: int, ordinal: int, deck: int, position: Option<int>)

  // The integer column's maximum.
  const MAX_POSITION := 2147483647

  type Cards = map<int, Card>

  /** UNIQUE (note_id, ordinal). */
  ghost predicate Unique(cards: Cards) {
    forall a, b :: a in cards && b in cards && a != b && cards[a].note == cards[b].note ==>
                     cards[a].ordinal != cards[b].ordinal
  }

  // Cards have ids below the next one handed out.
  ghost predicate Numbered(cards: Cards, next: int) { forall id :: id in cards ==> id < next }

  // A deck's highest position, zero when no card there has one.
  ghost predicate IsDeckMax(cards: Cards, deck: int, m: int) {
    if forall id :: id in cards && cards[id].deck == deck ==> cards[id].position.None? then m == 0
    else (exists id :: id in cards && cards[id].deck == deck && cards[id].position == Some(m))
         && forall id :: id in cards && cards[id].deck == deck && cards[id].position.Some? ==>
                           cards[id].position.value <= m
  }

  // LEAST(position, MAX_POSITION).
  function Capped(position: int): (capped: int)
    ensures capped <= position && capped <= MAX_POSITION && (capped == position || capped == MAX_POSITION)
  {
    if position <= MAX_POSITION then position else MAX_POSITION
  }

  lemma DeckMaxIsOne(cards: Cards, deck: int, m: int, k: int)
    requires IsDeckMax(cards, deck, m) && IsDeckMax(cards, deck, k)
    ensures m == k
  {
  }

  lemma SomeElement<T>(s: set<T>) returns (x: T)
    requires s != {}
    ensures x in s
  {
    x :| x in s;
  }

  lemma {:induction false} Greatest(s: set<int>) returns (m: int)
    requires s != {}
    ensures m in s && forall x :: x in s ==> x <= m
  {
    var x := SomeElement(s);
    if s == {x} {
      m := x;
    } else {
      var rest := s - {x};
      assert s == rest + {x};
      var r := Greatest(rest);
      m := if r < x then x else r;
    }
  }

  lemma DeckMaxExists(cards: Cards, deck: int) returns (m: int)
    ensures IsDeckMax(cards, deck, m)
  {
    var positions := set id | id in cards && cards[id].deck == deck && cards[id].position.Some? :: cards[id].position.value;
    forall id | id in cards && cards[id].deck == deck && cards[id].position.Some?
      ensures cards[id].position.value in positions
    {
    }
    if positions == {} {
      m := 0;
      assert forall id :: id in cards && cards[id].deck == deck ==> cards[id].position.None?;
    } else {
      m := Greatest(positions);
      var id :| id in cards && cards[id].deck == deck && cards[id].position.Some? && cards[id].position.value == m;
      assert cards[id].position == Some(m);
    }
  }

  // Cards inserted since stand behind everything older in their deck, up to the column's maximum.
  ghost predicate QueuedLast(before: Cards, after: Cards) {
    forall id, older :: id in after && id !in before && older in before && older in after
                         && after[id].deck == after[older].deck && after[older].position.Some? ==>
                         after[id].position.Some?
                         && (after[older].position.value < after[id].position.value
                             || after[id].position.value == MAX_POSITION)
  }

  method DeckMax(cards: Cards, deck: int) returns (m: int)
    ensures IsDeckMax(cards, deck, m)
  {
    var todo, some := cards.Keys, false;
    m := 0;
    while todo != {}
      invariant todo <= cards.Keys
      invariant !some ==> m == 0 && forall id :: id in cards && id !in todo && cards[id].deck == deck ==> cards[id].position.None?
      invariant some ==> (exists id :: id in cards && cards[id].deck == deck && cards[id].position == Some(m))
                         && forall id :: id in cards && id !in todo && cards[id].deck == deck && cards[id].position.Some? ==>
                                           cards[id].position.value <= m
    {
      var id := Rows.Pick(todo);
      todo := todo - {id};
      if cards[id].deck == deck && cards[id].position.Some? {
        if !some || m < cards[id].position.value { m := cards[id].position.value; }
        some := true;
      }
    }
  }
}
