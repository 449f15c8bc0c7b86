/** Notes, cards and decks: the card diff of one note, moving a note, deleting a deck, and what every
    run of them keeps (internal/db/cards.go, internal/db/notes.go, internal/db/deletion.go). */
module ContentTables {
  import opened Wrappers
  import opened CardRows
  import opened Sorting
  import Rows

  datatype Note = Note(deck: int, owner: int, guid: int)

  type Notes = map<int, Note>

  // Each deck's owner.
  type Decks = map<int, int>

  datatype Desired = Desired(ordinal: int, template: int)

  datatype ContentError = NoCards | NoRows | DuplicateGuid

  // ---- The card diff ----

  // The map the diff builds from the desired cards: the last entry for an ordinal wins.
  function Want(desired: seq<Desired>): map<int, int> {
    if desired == [] then map[]
    else Want(desired[..|desired| - 1])[desired[|desired| - 1].ordinal := desired[|desired| - 1].template]
  }

  // Positions handed out so far run behind the deck's old cards and in ordinal order.
  ghost predicate Queued(before: Cards, now: Cards, home: int) {
    && (forall id, older :: id in now && id !in before && older in before
                            && before[older].deck == home && before[older].position.Some? ==>
          now[id].position.Some?
          && (before[older].position.value < now[id].position.value || now[id].position.value == MAX_POSITION))
    && (forall a, b :: a in now && b in now && a !in before && b !in before && now[a].ordinal < now[b].ordinal ==>
          now[a].position.Some? && now[b].position.Some?
          && (now[a].position.value < now[b].position.value || now[b].position.value == MAX_POSITION))
  }

  ghost predicate IsNew(card: Card, before: Cards, note: int, home: int, want: map<int, int>) {
    && card.note == note && card.ordinal in want && card.template == want[card.ordinal] && card.deck == home
    && card.position.Some?
    && forall id :: id in before && before[id].note == note ==> before[id].ordinal != card.ordinal
  }

  ghost predicate HasCardAt(cards: Cards, note: int, ordinal: int) {
    exists id :: id in cards && cards[id].note == note && cards[id].ordinal == ordinal
  }

  ghost predicate HasCards(cards: Cards, note: int, ordinals: set<int>) {
    forall o :: o in ordinals ==> HasCardAt(cards, note, o)
  }

  ghost predicate Grows(before: Cards, now: Cards, note: int, home: int, want: map<int, int>, done: set<int>) {
    && (forall id :: id in before ==> id in now && now[id] == before[id])
    && (forall id :: id in now && id !in before ==> IsNew(now[id], before, note, home, want) && now[id].ordinal in done)
  }

  // The wanted ordinals up to o that had no card.
  ghost function Missing(before: Cards, note: int, want: map<int, int>, o: int): set<int> {
    set p | p in want && p <= o && !HasCardAt(before, note, p)
  }

  // Created cards take the places behind the home deck's highest, one each in ordinal order.
  ghost predicate InPlace(before: Cards, after: Cards, note: int, home: int, want: map<int, int>, m: int) {
    forall id :: id in after && id !in before ==>
      after[id].position == Some(Capped(m + |Missing(before, note, want, after[id].ordinal)|))
  }

  // The first phase: ordinals in done have a card, nothing old has changed.
  ghost predicate Created(before: Cards, now: Cards, note: int, home: int, want: map<int, int>, done: set<int>) {
    Grows(before, now, note, home, want, done) && HasCards(now, note, done) && Unique(now) && Queued(before, now, home)
  }

  /** What the diff promises: the note ends with exactly the desired ordinals and templates, a card
      whose ordinal survives is the same row but for its template, other notes' cards are untouched,
      and created cards take the next places of the home deck's queue in ordinal order. */
  ghost predicate Synced(before: Cards, after: Cards, note: int, home: int, want: map<int, int>) {
    && (forall id :: id in before && before[id].note != note ==> id in after && after[id] == before[id])
    && (forall id :: id in before && before[id].note == note ==>
          (id in after <==> before[id].ordinal in want)
          && (id in after ==> after[id] == before[id].(template := want[before[id].ordinal])))
    && (forall id :: id in after && id !in before ==> IsNew(after[id], before, note, home, want))
    && (forall o :: o in want ==> HasCardAt(after, note, o))
    && Unique(after) && Queued(before, after, home)
    && exists m :: IsDeckMax(before, home, m) && InPlace(before, after, note, home, want, m)
  }

  lemma StillHasCards(now: Cards, note: int, done: set<int>, id: int, card: Card)
    requires id !in now && card.note == note && HasCards(now, note, done)
    ensures HasCards(now[id := card], note, done + {card.ordinal})
  {
    var after := now[id := card];
    forall p | p in done + {card.ordinal} ensures HasCardAt(after, note, p) {
      if p == card.ordinal {
        assert id in after && after[id] == card;
      } else {
        assert HasCardAt(now, note, p);
        var c :| c in now && now[c].note == note && now[c].ordinal == p;
        assert c in after;
      }
    }
  }

  lemma InsertUnique(now: Cards, id: int, card: Card)
    requires Unique(now) && id !in now && !HasCardAt(now, card.note, card.ordinal)
    ensures Unique(now[id := card])
  {
    forall c | c in now && now[c].note == card.note ensures now[c].ordinal != card.ordinal {
      assert HasCardAt(now, card.note, now[c].ordinal);
    }
  }

  // An ordinal past the ones done, and not there before, is free.
  lemma OrdinalFree(before: Cards, now: Cards, note: int, home: int, want: map<int, int>, done: set<int>, o: int)
    requires Created(before, now, note, home, want, done)
    requires !HasCardAt(before, note, o) && forall p :: p in done ==> p < o
    ensures !HasCardAt(now, note, o)
  {
    forall c | c in now && now[c].note == note ensures now[c].ordinal != o {
      if c in before { assert HasCardAt(before, note, before[c].ordinal); }
    }
  }

  // One more ordinal: a new card behind everything its deck holds.
  lemma CreateOne(before: Cards, now: Cards, note: int, home: int, want: map<int, int>, done: set<int>, id: int, o: int, m: int)
    requires Created(before, now, note, home, want, done) && id !in now
    requires o in want && !HasCardAt(before, note, o) && forall p :: p in done ==> p < o
    requires IsDeckMax(now, home, m)
    ensures Created(before, now[id := Card(note, want[o], o, home, Some(Capped(m + 1)))], note, home, want, done + {o})
  {
    var card := Card(note, want[o], o, home, Some(Capped(m + 1)));
    OrdinalFree(before, now, note, home, want, done, o);
    NewIsNew(before, note, home, want, card);
    CreatedOneMore(before, now, note, home, want, done, id, card, m);
  }

  lemma CreatedOneMore(before: Cards, now: Cards, note: int, home: int, want: map<int, int>, done: set<int>, id: int, card: Card, m: int)
    requires Created(before, now, note, home, want, done) && id !in now && IsDeckMax(now, home, m)
    requires IsNew(card, before, note, home, want) && card.position == Some(Capped(m + 1))
    requires !HasCardAt(now, note, card.ordinal) && forall p :: p in done ==> p < card.ordinal
    ensures Created(before, now[id := card], note, home, want, done + {card.ordinal})
  {
    hide *;
    CreatedParts(before, now, note, home, want, done, card);
    InsertUnique(now, id, card);
    StillHasCards(now, note, done, id, card);
    QueueOne(before, now, note, home, want, done, id, card, m);
    GrowOne(before, now, note, home, want, done, id, card);
    CreatedWhole(before, now[id := card], note, home, want, done + {card.ordinal});
  }

  lemma CreatedParts(before: Cards, now: Cards, note: int, home: int, want: map<int, int>, done: set<int>, card: Card)
    requires Created(before, now, note, home, want, done) && IsNew(card, before, note, home, want)
    ensures Grows(before, now, note, home, want, done) && HasCards(now, note, done) && Unique(now) && Queued(before, now, home)
    ensures card.note == note && card.deck == home
  {
  }

  lemma CreatedWhole(before: Cards, now: Cards, note: int, home: int, want: map<int, int>, done: set<int>)
    requires Grows(before, now, note, home, want, done) && HasCards(now, note, done) && Unique(now) && Queued(before, now, home)
    ensures Created(before, now, note, home, want, done)
  {
  }

  lemma GrowOne(before: Cards, now: Cards, note: int, home: int, want: map<int, int>, done: set<int>, id: int, card: Card)
    requires Grows(before, now, note, home, want, done) && id !in now && IsNew(card, before, note, home, want)
    ensures Grows(before, now[id := card], note, home, want, done + {card.ordinal})
  {
  }

  lemma NewIsNew(before: Cards, note: int, home: int, want: map<int, int>, card: Card)
    requires !HasCardAt(before, note, card.ordinal) && card.ordinal in want && card.position.Some?
    requires card.note == note && card.template == want[card.ordinal] && card.deck == home
    ensures IsNew(card, before, note, home, want)
  {
    forall id | id in before && before[id].note == note ensures before[id].ordinal != card.ordinal {
      assert HasCardAt(before, note, before[id].ordinal);
    }
  }

  lemma QueueOne(before: Cards, now: Cards, note: int, home: int, want: map<int, int>, done: set<int>, id: int, card: Card, m: int)
    requires Queued(before, now, home) && Grows(before, now, note, home, want, done) && id !in now && IsDeckMax(now, home, m)
    requires card.deck == home && card.position == Some(Capped(m + 1)) && forall p :: p in done ==> p < card.ordinal
    ensures Queued(before, now[id := card], home)
  {
    forall c | c in now && now[c].deck == home && now[c].position.Some?
      ensures now[c].position.value < card.position.value || card.position.value == MAX_POSITION
    {
      assert now[c].position.value <= m;
    }
  }

  function OrdinalsTo(done: set<int>, o: int): set<int> { set p | p in done && p <= o }

  // The cards created so far, on top of a deck whose highest position was m.
  ghost predicate Line(before: Cards, now: Cards, note: int, home: int, want: map<int, int>, done: set<int>, m: int) {
    && (forall id :: id in now && id !in before ==>
          now[id].position == Some(Capped(m + |OrdinalsTo(done, now[id].ordinal)|)) && now[id].ordinal in done)
    && (forall top :: IsDeckMax(now, home, top) ==> Capped(top + 1) == Capped(m + |done| + 1))
    && (forall o :: o in done ==> o in want && !HasCardAt(before, note, o))
  }

  ghost predicate InLine(before: Cards, now: Cards, note: int, home: int, want: map<int, int>, done: set<int>) {
    exists m :: IsDeckMax(before, home, m) && Line(before, now, note, home, want, done, m)
  }

  lemma LineStarts(before: Cards, note: int, home: int, want: map<int, int>)
    ensures InLine(before, before, note, home, want, {})
  {
    var m := DeckMaxExists(before, home);
    forall top | IsDeckMax(before, home, top) ensures top == m { DeckMaxIsOne(before, home, top, m); }
    assert Line(before, before, note, home, want, {}, m);
  }

  // The deck's highest once one more card stands at its end.
  lemma TopOneMore(now: Cards, home: int, id: int, card: Card, m: int, top: int)
    requires id !in now && card.deck == home && card.position == Some(Capped(m + 1))
    requires IsDeckMax(now, home, m) && IsDeckMax(now[id := card], home, top)
    ensures Capped(top + 1) == Capped(Capped(m + 1) + 1)
  {
    var after := now[id := card];
    assert after[id].position.Some? && after[id].deck == home;
    var c :| c in after && after[c].deck == home && after[c].position == Some(top);
    assert Capped(m + 1) <= top;
    assert c != id ==> now[c].position.value <= m;
  }

  lemma OrdinalsBelow(done: set<int>, o: int, p: int)
    requires p < o
    ensures OrdinalsTo(done + {o}, p) == OrdinalsTo(done, p)
  {
  }

  lemma CappedNext(a: int, b: int)
    requires Capped(a) == Capped(b)
    ensures Capped(Capped(a) + 1) == Capped(b + 1)
  {
  }

  // The places once ordinal o, behind all those done, has its card.
  lemma PlacesStep(before: Cards, now: Cards, done: set<int>, first: int, id: int, card: Card)
    requires id !in before && (forall p :: p in done ==> p < card.ordinal)
    requires forall c :: c in now && c !in before ==>
               now[c].position == Some(Capped(first + |OrdinalsTo(done, now[c].ordinal)|)) && now[c].ordinal in done
    requires card.position == Some(Capped(first + |done| + 1))
    ensures var after, done' := now[id := card], done + {card.ordinal};
            forall c :: c in after && c !in before ==>
              after[c].position == Some(Capped(first + |OrdinalsTo(done', after[c].ordinal)|)) && after[c].ordinal in done'
  {
    var after, done' := now[id := card], done + {card.ordinal};
    assert |done'| == |done| + 1 && OrdinalsTo(done', card.ordinal) == done';
    hide OrdinalsTo, Capped;
    forall c | c in after && c !in before
      ensures after[c].position == Some(Capped(first + |OrdinalsTo(done', after[c].ordinal)|)) && after[c].ordinal in done'
    {
      if c != id { OrdinalsBelow(done, card.ordinal, now[c].ordinal); }
    }
  }

  lemma LineStep(before: Cards, now: Cards, note: int, home: int, want: map<int, int>, done: set<int>, id: int, o: int, m: int)
    requires InLine(before, now, note, home, want, done) && id !in now && o in want && !HasCardAt(before, note, o)
    requires IsDeckMax(now, home, m) && (forall p :: p in done ==> p < o) && forall c :: c in before ==> c in now
    ensures InLine(before, now[id := Card(note, want[o], o, home, Some(Capped(m + 1)))], note, home, want, done + {o})
  {
    hide HasCardAt, IsDeckMax, OrdinalsTo, Capped;
    var card := Card(note, want[o], o, home, Some(Capped(m + 1)));
    var after, done' := now[id := card], done + {o};
    var first :| IsDeckMax(before, home, first) && Line(before, now, note, home, want, done, first);
    assert Capped(m + 1) == Capped(first + |done| + 1) && |done'| == |done| + 1;
    PlacesStep(before, now, done, first, id, card);
    CappedNext(m + 1, first + |done| + 1);
    forall top | IsDeckMax(after, home, top) ensures Capped(top + 1) == Capped(first + |done'| + 1) {
      TopOneMore(now, home, id, card, m, top);
    }
    assert Line(before, after, note, home, want, done', first);
  }

  lemma LineIsPlace(before: Cards, now: Cards, after: Cards, note: int, home: int, want: map<int, int>, done: set<int>)
    requires InLine(before, now, note, home, want, done)
    requires forall o :: o in want && o !in done ==> HasCardAt(before, note, o)
    requires forall id :: id in after ==> id in now && after[id].ordinal == now[id].ordinal && after[id].position == now[id].position
    ensures exists m :: IsDeckMax(before, home, m) && InPlace(before, after, note, home, want, m)
  {
    hide IsDeckMax, HasCardAt;
    var m :| IsDeckMax(before, home, m) && Line(before, now, note, home, want, done, m);
    forall id | id in after && id !in before
      ensures after[id].position == Some(Capped(m + |Missing(before, note, want, after[id].ordinal)|))
    {
      assert Missing(before, note, want, after[id].ordinal) == OrdinalsTo(done, after[id].ordinal);
    }
    assert InPlace(before, after, note, home, want, m);
  }

  // The second and third phase on top of the first.
  lemma CreatedThenSynced(before: Cards, now: Cards, after: Cards, note: int, home: int, want: map<int, int>, done: set<int>)
    requires Unique(before) && Created(before, now, note, home, want, done)
    requires forall o :: o in want && o !in done ==> HasCardAt(before, note, o)
    requires forall id :: id in after <==> id in now && (now[id].note != note || now[id].ordinal in want)
    requires forall id :: id in after ==>
                            after[id] == if now[id].note == note then now[id].(template := want[now[id].ordinal]) else now[id]
    requires InLine(before, now, note, home, want, done)
    ensures Synced(before, after, note, home, want)
  {
    LineIsPlace(before, now, after, note, home, want, done);
    forall o | o in want ensures HasCardAt(after, note, o) {
      var id :| id in now && now[id].note == note && now[id].ordinal == o;
      assert id in after;
    }
    assert Unique(after) by {
      forall a, b | a in after && b in after && a != b && after[a].note == after[b].note
        ensures after[a].ordinal != after[b].ordinal
      {
        assert a in now && b in now;
      }
    }
    SyncedQueue(before, now, after, home);
  }

  lemma SyncedQueue(before: Cards, now: Cards, after: Cards, home: int)
    requires Queued(before, now, home)
    requires forall id :: id in after ==> id in now && after[id] == now[id].(template := after[id].template)
    ensures Queued(before, after, home)
  {
  }

  function Repointed(cards: Cards, done: set<int>, want: map<int, int>): Cards {
    map id | id in cards ::
      if id in done && cards[id].ordinal in want then cards[id].(template := want[cards[id].ordinal]) else cards[id]
  }

  function WithoutOrdinals(cards: Cards, note: int, ordinals: set<int>): Cards {
    map id | id in cards && !(cards[id].note == note && cards[id].ordinal in ordinals) :: cards[id]
  }

  function CardsOf(cards: Cards, note: int): set<int> { set id | id in cards && cards[id].note == note }

  function OrdinalsOf(cards: Cards, note: int): set<int> {
    set id | id in cards && cards[id].note == note :: cards[id].ordinal
  }

  lemma OrdinalsHeld(cards: Cards, note: int)
    ensures forall o :: o in OrdinalsOf(cards, note) <==> HasCardAt(cards, note, o)
    ensures forall id :: id in CardsOf(cards, note) <==> id in cards && cards[id].note == note
  {
    forall o ensures o in OrdinalsOf(cards, note) <==> HasCardAt(cards, note, o) {
      if HasCardAt(cards, note, o) {
        var id :| id in cards && cards[id].note == note && cards[id].ordinal == o;
        assert cards[id].ordinal in OrdinalsOf(cards, note);
      }
    }
  }

  lemma NothingDestroyed(cards: Cards, note: int, ordinals: set<int>)
    requires ordinals == {}
    ensures WithoutOrdinals(cards, note, ordinals) == cards
  {
  }

  // Destroying what is not wanted and repointing what was there completes the diff.
  lemma DiffCompletes(before: Cards, now: Cards, note: int, home: int, want: map<int, int>, done: set<int>, existing: set<int>, destroy: set<int>)
    requires Unique(before) && Created(before, now, note, home, want, done)
    requires forall o :: o in want && o !in done ==> HasCardAt(before, note, o)
    requires forall id :: id in existing <==> id in before && before[id].note == note
    requires forall o :: o in destroy <==> o !in want && HasCardAt(before, note, o)
    requires InLine(before, now, note, home, want, done)
    ensures Synced(before, Repointed(WithoutOrdinals(now, note, destroy), existing, want), note, home, want)
  {
    var after := Repointed(WithoutOrdinals(now, note, destroy), existing, want);
    forall id | id in now
      ensures id in after <==> now[id].note != note || now[id].ordinal in want
      ensures id in after ==>
                after[id] == if now[id].note == note then now[id].(template := want[now[id].ordinal]) else now[id]
    {
      if id in before {
        assert now[id] == before[id];
        if now[id].note == note { assert HasCardAt(before, note, before[id].ordinal); }
      } else {
        assert IsNew(now[id], before, note, home, want);
      }
    }
    forall o | o in want && o !in done ensures HasCardAt(now, note, o) {
      var id :| id in before && before[id].note == note && before[id].ordinal == o;
      assert now[id] == before[id];
    }
    CreatedThenSynced(before, now, after, note, home, want, done);
  }

  // The keys in ascending order.
  method SortedKeys(keys: set<int>) returns (s: seq<int>)
    ensures forall i, j :: 0 <= i < j < |s| ==> s[i] < s[j]
    ensures forall k :: k in s <==> k in keys
  {
    var list: seq<int>, todo := [], keys;
    while todo != {}
      invariant todo <= keys && Distinct(list)
      invariant forall k :: k in list <==> k in keys && k !in todo
    {
      var k := Rows.Pick(todo);
      todo := todo - {k};
      list := list + [k];
    }
    s := Sort(list, (a: int, b: int) => a < b);
    PermutationElements(list, s);
  }

  // ---- Deleting a deck ----

  ghost predicate HasCardElsewhere(cards: Cards, note: int, deck: int) {
    exists id :: id in cards && cards[id].note == note && cards[id].deck != deck
  }

  // ORDER BY ordinal, id LIMIT 1 over the note's cards outside the deck.
  ghost predicate IsLowest(cards: Cards, note: int, deck: int, id: int) {
    && id in cards && cards[id].note == note && cards[id].deck != deck
    && forall c :: c in cards && cards[c].note == note && cards[c].deck != deck ==>
                     cards[id].ordinal < cards[c].ordinal || (cards[id].ordinal == cards[c].ordinal && id <= c)
  }

  ghost predicate UniqueGuid(notes: Notes) {
    forall a, b :: a in notes && b in notes && a != b && notes[a].owner == notes[b].owner ==> notes[a].guid != notes[b].guid
  }

  // A surviving note's row once the deck is gone.
  ghost predicate IsRehomed(row: Note, was: Note, note: int, cards: Cards, decks: Decks, deck: int) {
    exists id :: IsLowest(cards, note, deck, id)
                 && cards[id].deck in decks && row == Note(cards[id].deck, decks[cards[id].deck], was.guid)
  }

  // The notes once those in done have been re-homed.
  ghost predicate Rehoming(before: Notes, now: Notes, cards: Cards, decks: Decks, deck: int, done: set<int>) {
    && now.Keys == before.Keys
    && forall n :: n in before ==>
         if before[n].deck == deck && n in done then IsRehomed(now[n], before[n], n, cards, decks, deck)
         else now[n] == before[n]
  }

  lemma LowestUnique(cards: Cards, note: int, deck: int, a: int, b: int)
    requires IsLowest(cards, note, deck, a) && IsLowest(cards, note, deck, b)
    ensures a == b
  {
  }

  // A re-homed row can only meet a (owner, guid) of a note homed elsewhere, since the deck's own
  // notes share an owner; so it would meet it at the end as well.
  lemma ClashLasts(before: Notes, now: Notes, final: Notes, cards: Cards, decks: Decks, deck: int, done: set<int>, all_: set<int>, n: int, row: Note, other: int)
    requires UniqueGuid(before) && forall m :: m in before && before[m].deck == deck ==> deck in decks && before[m].owner == decks[deck]
    requires Rehoming(before, now, cards, decks, deck, done) && Rehoming(before, final, cards, decks, deck, all_)
    requires n in before && before[n].deck == deck && n in all_ && done <= all_
    requires forall m :: m in all_ <==> m in before && before[m].deck == deck
    requires IsRehomed(row, before[n], n, cards, decks, deck)
    requires other in now && other != n && now[other].owner == row.owner && now[other].guid == row.guid
    ensures !UniqueGuid(final)
  {
    SameHome(final[n], row, before[n], n, cards, decks, deck);
  }

  lemma SameHome(a: Note, b: Note, was: Note, note: int, cards: Cards, decks: Decks, deck: int)
    requires IsRehomed(a, was, note, cards, decks, deck) && IsRehomed(b, was, note, cards, decks, deck)
    ensures a == b
  {
    var x :| IsLowest(cards, note, deck, x)
             && cards[x].deck in decks && a == Note(cards[x].deck, decks[cards[x].deck], was.guid);
    var y :| IsLowest(cards, note, deck, y)
             && cards[y].deck in decks && b == Note(cards[y].deck, decks[cards[y].deck], was.guid);
    LowestUnique(cards, note, deck, x, y);
  }

  method Lowest(cards: Cards, note: int, deck: int) returns (id: int)
    requires HasCardElsewhere(cards, note, deck)
    ensures IsLowest(cards, note, deck, id)
  {
    var rows := set c | c in cards && cards[c].note == note && cards[c].deck != deck;
    var c0 :| c0 in cards && cards[c0].note == note && cards[c0].deck != deck;
    assert c0 in rows;
    id := Rows.Pick(rows);
    var todo := rows;
    while todo != {}
      invariant todo <= rows && id in rows
      invariant forall c :: c in rows && c !in todo ==>
                              cards[id].ordinal < cards[c].ordinal || (cards[id].ordinal == cards[c].ordinal && id <= c)
    {
      var c := Rows.Pick(todo);
      todo := todo - {c};
      if cards[c].ordinal < cards[id].ordinal || (cards[c].ordinal == cards[id].ordinal && c < id) { id := c; }
    }
  }

  // ---- What every operation keeps ----

  datatype State = State(decks: Decks, notes: Notes, cards: Cards)

  /** Foreign keys; every note owned by its home deck's owner and never without a card; the two UNIQUE
      constraints. */
  ghost predicate Inv(s: State) {
    && (forall n :: n in s.notes ==> s.notes[n].deck in s.decks && s.notes[n].owner == s.decks[s.notes[n].deck])
    && (forall id :: id in s.cards ==> s.cards[id].note in s.notes && s.cards[id].deck in s.decks)
    && (forall n :: n in s.notes ==> HasCard(s.cards, n))
    && Unique(s.cards) && UniqueGuid(s.notes)
  }

  ghost predicate HasCard(cards: Cards, note: int) { exists id :: id in cards && cards[id].note == note }

  datatype Op =
    | CreateDeck(owner: int)
    | CreateNote(user: int, home: int, guid: int, desired: seq<Desired>)
    | UpdateNote(user: int, note: int, desired: seq<Desired>)
    | MoveNote(user: int, note: int, target: int)
    | DeleteDeck(user: int, deck: int)

  // Who may edit content in, and who may delete, a deck.
  datatype Rights = Rights(edit: set<(int, int)>, delete_: set<(int, int)>)

  // UPDATE cards SET deck_id, one statement over the note's cards in its old home deck.
  function Moved(cards: Cards, note: int, source: int, target: int): Cards {
    map id | id in cards :: if cards[id].note == note && cards[id].deck == source then cards[id].(deck := target) else cards[id]
  }

  /** The cards after a move: the same ids; a card of the note filed in the old home deck is its old row
      filed in the new one, every other card is its old row. */
  ghost predicate Refiled(before: Cards, after: Cards, note: int, source: int, target: int) {
    && (forall id :: id in after <==> id in before)
    && (forall id :: id in before && before[id].note == note && before[id].deck == source ==>
          after[id] == before[id].(deck := target))
    && forall id :: id in before && (before[id].note != note || before[id].deck != source) ==> after[id] == before[id]
  }

  /** Deleting a deck: its cards go, no other card is touched; exactly the notes with a card elsewhere
      stay, those homed in the deck moving to the deck of their lowest remaining card. */
  ghost predicate Deleted(s: State, s': State, deck: int) {
    && s'.decks == s.decks - {deck}
    && s'.cards == (map id | id in s.cards && s.cards[id].deck != deck :: s.cards[id])
    && (forall n :: n in s'.notes <==> n in s.notes && HasCardElsewhere(s.cards, n, deck))
    && forall n :: n in s'.notes ==>
         if s.notes[n].deck == deck then IsRehomed(s'.notes[n], s.notes[n], n, s.cards, s.decks, deck)
         else s'.notes[n] == s.notes[n]
  }

  // An operation that succeeds, and what it leaves behind.
  ghost predicate Does(op: Op, r: Rights, s: State, s': State) {
    match op
    case CreateDeck(owner) => exists d :: d !in s.decks && s' == s.(decks := s.decks[d := owner])
    case CreateNote(user, home, guid, desired) =>
      home in s.decks && (user, home) in r.edit && desired != [] && s'.decks == s.decks && UniqueGuid(s'.notes)
      && exists n :: n !in s.notes && s'.notes == s.notes[n := Note(home, s.decks[home], guid)]
                     && Synced(s.cards, s'.cards, n, home, Want(desired))
    case UpdateNote(user, note, desired) =>
      note in s.notes && (user, s.notes[note].deck) in r.edit && desired != []
      && s'.decks == s.decks && s'.notes == s.notes
      && Synced(s.cards, s'.cards, note, s.notes[note].deck, Want(desired))
    case MoveNote(user, note, target) =>
      note in s.notes && target in s.decks && (user, s.notes[note].deck) in r.edit && (user, target) in r.edit
      && s'.decks == s.decks
      && s'.notes == s.notes[note := Note(target, s.decks[target], s.notes[note].guid)] && UniqueGuid(s'.notes)
      && Refiled(s.cards, s'.cards, note, s.notes[note].deck, target)
    case DeleteDeck(user, deck) =>
      deck in s.decks && (user, deck) in r.delete_ && Deleted(s, s', deck) && UniqueGuid(s'.notes)
  }

  lemma MovedIsRefiled(cards: Cards, note: int, source: int, target: int)
    ensures Refiled(cards, Moved(cards, note, source, target), note, source, target)
  {
  }

  // A transaction commits what its operation did, or rolls back.
  ghost predicate Next(op: Op, r: Rights, s: State, s': State) { s' == s || Does(op, r, s, s') }

  lemma SyncedKeepsCards(before: Cards, after: Cards, note: int, home: int, desired: seq<Desired>)
    requires Synced(before, after, note, home, Want(desired)) && desired != []
    ensures HasCard(after, note)
    ensures forall n :: n != note && HasCard(before, n) ==> HasCard(after, n)
    ensures forall id :: id in after ==>
                           (after[id].note == note && after[id].deck == home)
                           || (id in before && after[id].note == before[id].note && after[id].deck == before[id].deck)
  {
    var o := desired[|desired| - 1].ordinal;
    assert o in Want(desired);
    assert HasCardAt(after, note, o);
    forall n | n != note && HasCard(before, n) ensures HasCard(after, n) {
      var id :| id in before && before[id].note == n;
      assert id in after;
    }
  }

  // Syncing one note's cards, that note being new or old.
  lemma SyncKeepsInv(s: State, s': State, note: int, desired: seq<Desired>)
    requires s'.decks == s.decks && UniqueGuid(s'.notes) && note in s'.notes && desired != []
    requires forall n :: n in s'.notes ==>
                           s'.notes[n].deck in s.decks && s'.notes[n].owner == s.decks[s'.notes[n].deck]
                           && (n != note ==> HasCard(s.cards, n))
    requires forall id :: id in s.cards ==> s.cards[id].note in s'.notes && s.cards[id].deck in s.decks
    requires Synced(s.cards, s'.cards, note, s'.notes[note].deck, Want(desired))
    ensures Inv(s')
  {
    SyncedKeepsCards(s.cards, s'.cards, note, s'.notes[note].deck, desired);
  }

  lemma MoveKeepsInv(s: State, s': State, op: Op, r: Rights)
    requires Inv(s) && op.MoveNote? && Does(op, r, s, s')
    ensures Inv(s')
  {
    RefiledRows(s.cards, s'.cards, op.note, s.notes[op.note].deck, op.target);
    hide Refiled, UniqueGuid;
    RefiledUnique(s.cards, s'.cards);
    forall n | n in s'.notes ensures HasCard(s'.cards, n) {
      assert HasCard(s.cards, n);
      var id :| id in s.cards && s.cards[id].note == n;
      assert id in s'.cards && s'.cards[id].note == n;
    }
    hide Unique, HasCard;
  }

  lemma RefiledRows(before: Cards, after: Cards, note: int, source: int, target: int)
    requires Refiled(before, after, note, source, target)
    ensures forall id :: id in after <==> id in before
    ensures forall id :: id in after ==> after[id].note == before[id].note && after[id].ordinal == before[id].ordinal
                                         && (after[id].deck == before[id].deck || after[id].deck == target)
  {
  }

  lemma RefiledUnique(before: Cards, after: Cards)
    requires Unique(before) && forall id :: id in after ==> id in before && after[id].note == before[id].note && after[id].ordinal == before[id].ordinal
    ensures Unique(after)
  {
  }

  /** A note that moves to another deck leaves no card behind in its old one, and takes every card filed
      there along. */
  lemma MoveTakesAll(s: State, s': State, user: int, note: int, target: int, r: Rights)
    requires Inv(s) && Does(Op.MoveNote(user, note, target), r, s, s')
    ensures var source := s.notes[note].deck;
            && (source != target ==> forall id :: id in s'.cards && s'.cards[id].note == note ==> s'.cards[id].deck != source)
            && (forall id :: id in s.cards && s.cards[id].note == note && s.cards[id].deck == source ==> s'.cards[id].deck == target)
            && s'.notes[note].deck == target && s'.notes[note].owner == s'.decks[target]
  {
    hide Inv, UniqueGuid;
  }

  lemma DeleteKeepsInv(s: State, s': State, op: Op, r: Rights)
    requires Inv(s) && op.DeleteDeck? && Does(op, r, s, s')
    ensures Inv(s')
    ensures forall n :: n in s'.notes ==> exists id :: id in s'.cards && s'.cards[id].note == n
                                                       && (s.notes[n].deck == op.deck ==> s'.cards[id].deck == s'.notes[n].deck)
  {
    forall n | n in s'.notes
      ensures s'.notes[n].deck in s'.decks && s'.notes[n].owner == s'.decks[s'.notes[n].deck]
      ensures exists id :: id in s'.cards && s'.cards[id].note == n
                           && (s.notes[n].deck == op.deck ==> s'.cards[id].deck == s'.notes[n].deck)
    {
      var id: int;
      if s.notes[n].deck == op.deck {
        id :| IsLowest(s.cards, n, op.deck, id) && s.cards[id].deck in s.decks
              && s'.notes[n] == Note(s.cards[id].deck, s.decks[s.cards[id].deck], s.notes[n].guid);
      } else {
        id :| id in s.cards && s.cards[id].note == n && s.cards[id].deck != op.deck;
      }
      assert id in s'.cards;
    }
    forall n | n in s'.notes ensures HasCard(s'.cards, n) {
      var id :| id in s'.cards && s'.cards[id].note == n;
    }
    forall id | id in s'.cards ensures s'.cards[id].note in s'.notes && s'.cards[id].deck in s'.decks {
      assert HasCardElsewhere(s.cards, s.cards[id].note, op.deck);
    }
  }

  lemma NextKeepsInv(op: Op, r: Rights, s: State, s': State)
    requires Inv(s) && Next(op, r, s, s')
    ensures Inv(s')
  {
    if s' != s {
      match op
      case CreateDeck(_) =>
      case CreateNote(_, home, guid, desired) =>
        var n :| n !in s.notes && s'.notes == s.notes[n := Note(home, s.decks[home], guid)]
                 && Synced(s.cards, s'.cards, n, home, Want(desired));
        SyncKeepsInv(s, s', n, desired);
      case UpdateNote(_, note, desired) => SyncKeepsInv(s, s', note, desired);
      case MoveNote(_, _, _) => MoveKeepsInv(s, s', op, r);
      case DeleteDeck(_, _) => DeleteKeepsInv(s, s', op, r);
    }
  }

  // A run: the tables after each transaction.
  ghost predicate Runs(ops: seq<Op>, rights: seq<Rights>, trace: seq<State>) {
    |trace| == |ops| + 1 && |rights| == |ops|
    && forall i :: 0 <= i < |ops| ==> Next(ops[i], rights[i], trace[i], trace[i + 1])
  }

  /** Over every run, whoever may do what: no note is ever without a card, and every note belongs to
      its home deck's owner. */
  lemma {:induction false} RunKeepsInv(ops: seq<Op>, rights: seq<Rights>, trace: seq<State>, n: nat)
    requires Runs(ops, rights, trace) && Inv(trace[0]) && n < |trace|
    ensures Inv(trace[n])
  {
    if n > 0 {
      RunKeepsInv(ops, rights, trace, n - 1);
      NextKeepsInv(ops[n - 1], rights[n - 1], trace[n - 1], trace[n]);
    }
  }

  lemma WantStep(desired: seq<Desired>, i: nat)
    requires i < |desired|
    ensures Want(desired[..i + 1]) == Want(desired[..i])[desired[i].ordinal := desired[i].template]
  {
    assert desired[..i + 1][..i] == desired[..i];
  }

  /** The desired cards as a map: its ordinals are exactly those submitted, and each has the template of
      the last entry that names it. */
  lemma {:induction false} WantIs(desired: seq<Desired>)
    ensures forall o :: o in Want(desired) <==> exists k :: 0 <= k < |desired| && desired[k].ordinal == o
    ensures forall k :: 0 <= k < |desired| && (forall j :: k < j < |desired| ==> desired[j].ordinal != desired[k].ordinal) ==>
              Want(desired)[desired[k].ordinal] == desired[k].template
  {
    if desired != [] {
      var n := |desired| - 1;
      var init, last := desired[..n], desired[n];
      WantIs(init);
      forall o ensures o in Want(desired) <==> exists k :: 0 <= k < |desired| && desired[k].ordinal == o {
        if k :| 0 <= k < n && init[k].ordinal == o { assert desired[k].ordinal == o; }
        if o == last.ordinal { assert desired[n].ordinal == o; }
        if k :| 0 <= k < |desired| && desired[k].ordinal == o { assert k < n ==> init[k].ordinal == o; }
      }
      forall k | 0 <= k < |desired| && forall j :: k < j < |desired| ==> desired[j].ordinal != desired[k].ordinal
        ensures Want(desired)[desired[k].ordinal] == desired[k].template
      {
        if k < n {
          assert init[k] == desired[k] && desired[n].ordinal != desired[k].ordinal;
          assert forall j :: k < j < n ==> init[j] == desired[j];
        }
      }
    }
  }

  // Ordinals up to the k-th are in place: created now, or there before.
  ghost predicate CreatedUpTo(before: Cards, now: Cards, note: int, home: int, want: map<int, int>, ords: seq<int>, k: nat, done: set<int>)
    requires k <= |ords|
  {
    && Created(before, now, note, home, want, done)
    && (forall o :: o in done ==> o in ords[..k])
    && (forall o :: o in ords[..k] ==> o in done || HasCardAt(before, note, o))
  }

  lemma DoneBelow(before: Cards, now: Cards, note: int, home: int, want: map<int, int>, ords: seq<int>, k: nat, done: set<int>)
    requires k < |ords| && CreatedUpTo(before, now, note, home, want, ords, k, done)
    requires forall i, j :: 0 <= i < j < |ords| ==> ords[i] < ords[j]
    ensures Created(before, now, note, home, want, done) && forall p :: p in done ==> p < ords[k]
    ensures forall id :: id in before ==> id in now
  {
    hide HasCards, Queued, Unique, IsNew, HasCardAt;
  }

  lemma OrdinalThere(before: Cards, now: Cards, note: int, home: int, want: map<int, int>, ords: seq<int>, k: nat, done: set<int>)
    requires k < |ords| && CreatedUpTo(before, now, note, home, want, ords, k, done) && HasCardAt(before, note, ords[k])
    ensures CreatedUpTo(before, now, note, home, want, ords, k + 1, done)
  {
    hide Created, HasCardAt;
    assert ords[..k + 1] == ords[..k] + [ords[k]];
  }

  lemma OrdinalCreated(before: Cards, now: Cards, now': Cards, note: int, home: int, want: map<int, int>, ords: seq<int>, k: nat, done: set<int>)
    requires k < |ords| && CreatedUpTo(before, now, note, home, want, ords, k, done)
    requires Created(before, now', note, home, want, done + {ords[k]})
    ensures CreatedUpTo(before, now', note, home, want, ords, k + 1, done + {ords[k]})
  {
    hide Created, HasCardAt;
    assert ords[..k + 1] == ords[..k] + [ords[k]];
  }

  method WantMap(desired: seq<Desired>) returns (want: map<int, int>)
    ensures want == Want(desired)
  {
    want := map[];
    for i := 0 to |desired|
      invariant want == Want(desired[..i])
    {
      WantStep(desired, i);
      want := want[desired[i].ordinal := desired[i].template];
    }
    assert desired[..|desired|] == desired;
  }

  ghost predicate GuidFree(notes: Notes, owner: int, guid: int) {
    forall n :: n in notes && notes[n].owner == owner ==> notes[n].guid != guid
  }

  lemma GuidStaysUnique(notes: Notes, note: int, row: Note)
    requires UniqueGuid(notes)
    requires !exists n :: n in notes && n != note && notes[n].owner == row.owner && notes[n].guid == row.guid
    ensures UniqueGuid(notes[note := row])
  {
  }

  function Homed(notes: Notes, deck: int): set<int> { set n | n in notes && notes[n].deck == deck }

  ghost function Doomed(notes: Notes, cards: Cards, deck: int): set<int> {
    set n | n in notes && (notes[n].deck == deck || exists id :: id in cards && cards[id].note == n && cards[id].deck == deck)
            && !HasCardElsewhere(cards, n, deck)
  }

  // After the orphans are gone, every note has a card outside the deck, and no card outside went.
  lemma Survivors(s: State, kept: Notes, left: Cards, deck: int)
    requires Inv(s) && kept == s.notes - Doomed(s.notes, s.cards, deck)
    requires left == map id | id in s.cards && s.cards[id].note !in Doomed(s.notes, s.cards, deck) :: s.cards[id]
    ensures forall n :: n in kept <==> n in s.notes && HasCardElsewhere(s.cards, n, deck)
    ensures forall n :: n in kept ==> HasCardElsewhere(left, n, deck)
    ensures forall id :: id in s.cards && s.cards[id].deck != deck ==> id in left
    ensures forall id :: id in left ==> left[id] == s.cards[id]
  {
    forall n | n in s.notes && !HasCardElsewhere(s.cards, n, deck) ensures n in Doomed(s.notes, s.cards, deck) {
      assert HasCard(s.cards, n);
    }
    forall id | id in s.cards && s.cards[id].deck != deck ensures id in left {
      assert HasCardElsewhere(s.cards, s.cards[id].note, deck);
    }
    forall n | n in kept ensures HasCardElsewhere(left, n, deck) {
      var id :| id in s.cards && s.cards[id].note == n && s.cards[id].deck != deck;
      assert id in left;
    }
  }

  // The orphan step leaves the cards outside the deck alone, so it does not change where notes go.
  lemma SameLowest(cards: Cards, left: Cards, note: int, deck: int, id: int)
    requires forall c :: c in cards && cards[c].deck != deck ==> c in left
    requires forall c :: c in left ==> c in cards && left[c] == cards[c]
    ensures IsLowest(cards, note, deck, id) <==> IsLowest(left, note, deck, id)
  {
  }

  lemma SameRehomed(row: Note, was: Note, note: int, cards: Cards, left: Cards, decks: Decks, deck: int)
    requires forall c :: c in cards && cards[c].deck != deck ==> c in left
    requires forall c :: c in left ==> c in cards && left[c] == cards[c]
    ensures IsRehomed(row, was, note, cards, decks, deck) <==> IsRehomed(row, was, note, left, decks, deck)
  {
    forall id ensures IsLowest(cards, note, deck, id) <==> IsLowest(left, note, deck, id) {
      SameLowest(cards, left, note, deck, id);
    }
  }

  lemma DeletedRehomes(s: State, s': State, kept: Notes, left: Cards, deck: int)
    requires Deleted(s, s', deck)
    requires forall n :: n in kept <==> n in s.notes && HasCardElsewhere(s.cards, n, deck)
    requires forall n :: n in kept ==> kept[n] == s.notes[n]
    requires forall c :: c in s.cards && s.cards[c].deck != deck ==> c in left
    requires forall c :: c in left ==> c in s.cards && left[c] == s.cards[c]
    ensures Rehoming(kept, s'.notes, left, s.decks, deck, Homed(kept, deck))
  {
    assert forall n :: n in s'.notes <==> n in kept;
    assert s'.notes.Keys == kept.Keys;
    forall n | n in kept && kept[n].deck == deck ensures IsRehomed(s'.notes[n], kept[n], n, left, s.decks, deck) {
      SameRehomed(s'.notes[n], s.notes[n], n, s.cards, left, s.decks, deck);
    }
  }

  lemma RehomedAway(kept: Notes, now: Notes, left: Cards, decks: Decks, deck: int)
    requires Rehoming(kept, now, left, decks, deck, Homed(kept, deck))
    ensures forall n :: n in now ==> now[n].deck != deck
  {
    forall n | n in now ensures now[n].deck != deck {
      if kept[n].deck == deck {
        assert IsRehomed(now[n], kept[n], n, left, decks, deck);
      }
    }
  }

  lemma DeletedFromParts(s: State, s': State, kept: Notes, left: Cards, deck: int)
    requires forall n :: n in kept <==> n in s.notes && HasCardElsewhere(s.cards, n, deck)
    requires forall n :: n in kept ==> kept[n] == s.notes[n]
    requires forall c :: c in s.cards && s.cards[c].deck != deck ==> c in left
    requires forall c :: c in left ==> c in s.cards && left[c] == s.cards[c]
    requires Rehoming(kept, s'.notes, left, s.decks, deck, Homed(kept, deck))
    requires s'.decks == s.decks - {deck}
    requires s'.cards == map id | id in left && left[id].deck != deck :: left[id]
    ensures Deleted(s, s', deck)
  {
    var rest := map id | id in s.cards && s.cards[id].deck != deck :: s.cards[id];
    assert forall id :: id in rest <==> id in s'.cards;
    assert rest.Keys == s'.cards.Keys;
    forall id | id in rest ensures rest[id] == s'.cards[id] {
    }
    assert rest == s'.cards;
    forall n | n in s'.notes && s.notes[n].deck == deck
      ensures IsRehomed(s'.notes[n], s.notes[n], n, s.cards, s.decks, deck)
    {
      SameRehomed(s'.notes[n], s.notes[n], n, s.cards, left, s.decks, deck);
    }
  }

  lemma RehomeReady(s: State, kept: Notes, left: Cards, deck: int)
    requires Inv(s) && deck in s.decks && kept == s.notes - Doomed(s.notes, s.cards, deck)
    requires left == map id | id in s.cards && s.cards[id].note !in Doomed(s.notes, s.cards, deck) :: s.cards[id]
    ensures UniqueGuid(kept)
    ensures forall n :: n in kept && kept[n].deck == deck ==>
                          kept[n].owner == s.decks[deck] && HasCardElsewhere(left, n, deck)
    ensures forall id :: id in left ==> left[id].deck in s.decks
  {
    Survivors(s, kept, left, deck);
  }

  // A re-homing that cannot avoid a clash leaves no way to delete the deck.
  lemma NoWayHome(s: State, kept: Notes, left: Cards, deck: int)
    requires Inv(s) && kept == s.notes - Doomed(s.notes, s.cards, deck)
    requires left == map id | id in s.cards && s.cards[id].note !in Doomed(s.notes, s.cards, deck) :: s.cards[id]
    requires forall final :: Rehoming(kept, final, left, s.decks, deck, Homed(kept, deck)) ==> !UniqueGuid(final)
    ensures forall s' :: Deleted(s, s', deck) ==> !UniqueGuid(s'.notes)
  {
    Survivors(s, kept, left, deck);
    forall s' | Deleted(s, s', deck) ensures !UniqueGuid(s'.notes) {
      DeletedRehomes(s, s', kept, left, deck);
    }
  }

  // n is to be re-homed to an owner who has a note of its guid, m, that stays.
  ghost predicate Clash(s: State, deck: int, n: int, m: int) {
    && n in s.notes && m in s.notes && s.notes[n].deck == deck && s.notes[m].deck != deck
    && HasCardElsewhere(s.cards, m, deck) && s.notes[m].guid == s.notes[n].guid
    && exists id :: IsLowest(s.cards, n, deck, id)
                    && s.cards[id].deck in s.decks && s.notes[m].owner == s.decks[s.cards[id].deck]
  }

  ghost predicate GuidClash(s: State, deck: int) { exists n, m :: Clash(s, deck, n, m) }

  // The same, once the orphans are gone.
  ghost predicate MeetsNote(notes: Notes, cards: Cards, decks: Decks, deck: int, n: int, m: int) {
    && n in notes && m in notes && notes[n].deck == deck && notes[m].deck != deck && notes[m].guid == notes[n].guid
    && exists id :: IsLowest(cards, n, deck, id)
                    && cards[id].deck in decks && notes[m].owner == decks[cards[id].deck]
  }

  ghost predicate RehomeClash(notes: Notes, cards: Cards, decks: Decks, deck: int) {
    exists n, m :: MeetsNote(notes, cards, decks, deck, n, m)
  }

  lemma ClashFound(before: Notes, now: Notes, cards: Cards, decks: Decks, deck: int, done: set<int>, n: int, id: int, other: int)
    requires UniqueGuid(before) && forall m :: m in before && before[m].deck == deck ==> deck in decks && before[m].owner == decks[deck]
    requires Rehoming(before, now, cards, decks, deck, done) && n in before && before[n].deck == deck
    requires IsLowest(cards, n, deck, id) && cards[id].deck in decks
    requires other in now && other != n && now[other].owner == decks[cards[id].deck] && now[other].guid == before[n].guid
    ensures RehomeClash(before, cards, decks, deck)
  {
    assert before[other].guid == before[n].guid;
    assert before[other].deck != deck;
    assert MeetsNote(before, cards, decks, deck, n, other);
  }

  lemma ClashBefore(s: State, kept: Notes, left: Cards, deck: int)
    requires Inv(s) && kept == s.notes - Doomed(s.notes, s.cards, deck)
    requires left == map id | id in s.cards && s.cards[id].note !in Doomed(s.notes, s.cards, deck) :: s.cards[id]
    requires RehomeClash(kept, left, s.decks, deck)
    ensures GuidClash(s, deck)
  {
    Survivors(s, kept, left, deck);
    var n, m :| MeetsNote(kept, left, s.decks, deck, n, m);
    var id :| IsLowest(left, n, deck, id) && left[id].deck in s.decks && kept[m].owner == s.decks[left[id].deck];
    SameLowest(s.cards, left, n, deck, id);
    assert IsLowest(s.cards, n, deck, id) && s.cards[id].deck in s.decks;
    assert Clash(s, deck, n, m);
  }

  // A deletion that went through met nothing.
  lemma NoClash(s: State, s': State, deck: int)
    requires Deleted(s, s', deck) && UniqueGuid(s'.notes)
    ensures !GuidClash(s, deck)
  {
    forall n, m ensures !Clash(s, deck, n, m) {
      if n in s.notes && m in s.notes && s.notes[n].deck == deck && s.notes[m].deck != deck && HasCardElsewhere(s.cards, m, deck) {
        forall id | IsLowest(s.cards, n, deck, id) && s.cards[id].deck in s.decks && s.notes[m].owner == s.decks[s.cards[id].deck]
          ensures s.notes[m].guid != s.notes[n].guid
        {
          assert n in s'.notes && m in s'.notes && s'.notes[m] == s.notes[m];
          var row := Note(s.cards[id].deck, s.decks[s.cards[id].deck], s.notes[n].guid);
          SameHome(s'.notes[n], row, s.notes[n], n, s.cards, s.decks, deck);
        }
      }
    }
  }

  lemma DeleteDone(s: State, s': State, kept: Notes, left: Cards, user: int, deck: int, rights: Rights)
    requires Inv(s) && kept == s.notes - Doomed(s.notes, s.cards, deck)
    requires left == map id | id in s.cards && s.cards[id].note !in Doomed(s.notes, s.cards, deck) :: s.cards[id]
    requires Rehoming(kept, s'.notes, left, s.decks, deck, Homed(kept, deck)) && UniqueGuid(s'.notes)
    requires s'.decks == s.decks - {deck}
    requires s'.cards == map id | id in left && left[id].deck != deck :: left[id]
    requires deck in s.decks && (user, deck) in rights.delete_
    ensures Does(Op.DeleteDeck(user, deck), rights, s, s') && Inv(s') && !GuidClash(s, deck)
    ensures forall id :: id in s'.cards ==> id in s.cards
    ensures forall n :: n in s'.notes ==> n in s.notes
  {
    Survivors(s, kept, left, deck);
    DeletedFromParts(s, s', kept, left, deck);
    NoClash(s, s', deck);
    DeleteKeepsInv(s, s', Op.DeleteDeck(user, deck), rights);
  }

  lemma InvUnique(s: State)
    requires Inv(s)
    ensures Unique(s.cards) && UniqueGuid(s.notes)
  {
  }

  lemma NoteCreated(s: State, s': State, note: int, user: int, home: int, guid: int, desired: seq<Desired>, rights: Rights)
    requires Inv(s) && home in s.decks && (user, home) in rights.edit && desired != [] && note !in s.notes
    requires s'.decks == s.decks && s'.notes == s.notes[note := Note(home, s.decks[home], guid)] && UniqueGuid(s'.notes)
    requires Synced(s.cards, s'.cards, note, home, Want(desired))
    ensures Does(Op.CreateNote(user, home, guid, desired), rights, s, s') && Inv(s')
  {
    hide Inv, Synced, Want, UniqueGuid;
    NextKeepsInv(Op.CreateNote(user, home, guid, desired), rights, s, s');
  }

  class Content {
    var decks: Decks
    var notes: Notes
    var cards: Cards
    var nextNote: int
    var nextCard: int

    ghost function Tables(): State
      reads this
    {
      State(decks, notes, cards)
    }

    // Ids are handed out in ascending order.
    ghost predicate Valid()
      reads this
    {
      Inv(Tables()) && Numbered(cards, nextCard) && forall n :: n in notes ==> n < nextNote
    }

    method CreateCard(note: int, template: int, ordinal: int, deck: int)
      modifies this`cards, this`nextCard
      ensures nextCard == old(nextCard) + 1
      ensures exists m :: IsDeckMax(old(cards), deck, m)
                          && cards == old(cards)[old(nextCard) := Card(note, template, ordinal, deck, Some(Capped(m + 1)))]
    {
      var m := DeckMax(cards, deck);
      cards := cards[nextCard := Card(note, template, ordinal, deck, Some(Capped(m + 1)))];
      nextCard := nextCard + 1;
    }

    // One wanted ordinal: created at the end of the home deck's queue unless a card has it already.
    method CreateMissing(note: int, home: int, want: map<int, int>, ords: seq<int>, k: nat, existing: set<int>, ghost before: Cards, ghost done: set<int>)
        returns (ghost done': set<int>)
      requires k < |ords| && (forall i, j :: 0 <= i < j < |ords| ==> ords[i] < ords[j]) && ords[k] in want
      requires CreatedUpTo(before, cards, note, home, want, ords, k, done) && Numbered(cards, nextCard)
      requires ords[k] in existing <==> HasCardAt(before, note, ords[k])
      modifies this`cards, this`nextCard
      requires InLine(before, cards, note, home, want, done)
      ensures CreatedUpTo(before, cards, note, home, want, ords, k + 1, done') && Numbered(cards, nextCard)
      ensures InLine(before, cards, note, home, want, done')
    {
      hide CreatedUpTo, Created, HasCardAt, IsDeckMax, InLine;
      done' := done;
      if ords[k] in existing {
        OrdinalThere(before, cards, note, home, want, ords, k, done);
      } else {
        DoneBelow(before, cards, note, home, want, ords, k, done);
        ghost var now, id := cards, nextCard;
        CreateCard(note, want[ords[k]], ords[k], home);
        ghost var m :| IsDeckMax(now, home, m)
                       && cards == now[id := Card(note, want[ords[k]], ords[k], home, Some(Capped(m + 1)))];
        CreateOne(before, now, note, home, want, done, id, ords[k], m);
        LineStep(before, now, note, home, want, done, id, ords[k], m);
        done' := done + {ords[k]};
        OrdinalCreated(before, now, cards, note, home, want, ords, k, done);
      }
    }

    // In ordinal order, so that a note's first card is queued before its second.
    method CreateAll(note: int, home: int, want: map<int, int>, ords: seq<int>, existing: set<int>) returns (ghost done: set<int>)
      requires (forall i, j :: 0 <= i < j < |ords| ==> ords[i] < ords[j]) && forall o :: o in ords <==> o in want
      requires Unique(cards) && Numbered(cards, nextCard) && forall o :: o in existing <==> HasCardAt(cards, note, o)
      modifies this`cards, this`nextCard
      ensures Created(old(cards), cards, note, home, want, done) && Numbered(cards, nextCard)
      ensures forall o :: o in want && o !in done ==> HasCardAt(old(cards), note, o)
      ensures InLine(old(cards), cards, note, home, want, done)
    {
      hide InLine;
      ghost var before := cards;
      done := {};
      LineStarts(before, note, home, want);
      for k := 0 to |ords|
        invariant InLine(before, cards, note, home, want, done)
        invariant CreatedUpTo(before, cards, note, home, want, ords, k, done) && Numbered(cards, nextCard)
      {
        assert ords[k] in ords;
        done := CreateMissing(note, home, want, ords, k, existing, before, done);
      }
      assert ords[..|ords|] == ords;
    }

    method DeleteCardsByOrdinals(note: int, ordinals: set<int>)
      modifies this`cards
      ensures cards == WithoutOrdinals(old(cards), note, ordinals) && cards.Keys <= old(cards).Keys
    {
      cards := WithoutOrdinals(cards, note, ordinals);
    }

    method Repoint(existing: set<int>, want: map<int, int>)
      modifies this`cards
      ensures cards == Repointed(old(cards), existing, want) && cards.Keys == old(cards).Keys
    {
      var todo := existing;
      assert Repointed(cards, {}, want) == cards;
      while todo != {}
        invariant todo <= existing && cards == Repointed(old(cards), existing - todo, want)
      {
        var id := Rows.Pick(todo);
        if id in cards && cards[id].ordinal in want && want[cards[id].ordinal] != cards[id].template {
          cards := cards[id := cards[id].(template := want[cards[id].ordinal])];
        }
        todo := todo - {id};
        assert cards == Repointed(old(cards), existing - todo, want);
      }
      assert existing - todo == existing;
    }

    /** The diff of one note's cards against the desired ones: create, destroy, repoint. */
    method SyncNoteCards(note: int, home: int, desired: seq<Desired>) returns (r: Result<(), ContentError>)
      requires Unique(cards) && Numbered(cards, nextCard)
      modifies this`cards, this`nextCard
      ensures if desired == [] then r == Err(NoCards) && cards == old(cards)
              else r.Ok? && Synced(old(cards), cards, note, home, Want(desired))
      ensures Numbered(cards, nextCard)
    {
      hide Created, InLine, Synced, Want, Unique, HasCardAt, CardsOf, OrdinalsOf, Repointed, WithoutOrdinals;
      if |desired| == 0 { return Err(NoCards); }
      ghost var before := cards;
      var existing := CardsOf(cards, note);
      var existingOrdinals := OrdinalsOf(cards, note);
      var want := WantMap(desired);
      var ords := SortedKeys(want.Keys);
      OrdinalsHeld(before, note);
      ghost var done := CreateAll(note, home, want, ords, existingOrdinals);
      var destroy := set o | o in existingOrdinals && o !in want;
      DiffCompletes(before, cards, note, home, want, done, existing, destroy);
      if destroy != {} {
        DeleteCardsByOrdinals(note, destroy);
      } else {
        NothingDestroyed(cards, note, destroy);
      }
      Repoint(existing, want);
      r := Ok(());
    }

    method CreateNoteWithCards(user: int, home: int, guid: int, desired: seq<Desired>, rights: Rights) returns (r: Result<int, ContentError>)
      requires Valid()
      modifies this
      ensures r.Ok? <==> home in old(decks) && (user, home) in rights.edit && desired != []
                         && GuidFree(old(notes), old(decks)[home], guid)
      ensures r.Ok? ==> Valid() && Does(Op.CreateNote(user, home, guid, desired), rights, old(Tables()), Tables())
    {
      hide Inv, Synced, Want, Unique, UniqueGuid;
      InvUnique(Tables());
      if home !in decks || (user, home) !in rights.edit { return Err(NoRows); }
      var owner := decks[home];
      if exists n :: n in notes && notes[n].owner == owner && notes[n].guid == guid { return Err(DuplicateGuid); }
      var note := nextNote;
      ghost var s := Tables();
      GuidStaysUnique(notes, note, Note(home, owner, guid));
      notes := notes[note := Note(home, owner, guid)];
      nextNote := nextNote + 1;
      var synced := SyncNoteCards(note, home, desired);
      if synced.Err? { return Err(synced.error); }
      NoteCreated(s, Tables(), note, user, home, guid, desired, rights);
      r := Ok(note);
    }

    method UpdateNoteWithCards(user: int, note: int, desired: seq<Desired>, rights: Rights) returns (r: Result<(), ContentError>)
      requires Valid()
      modifies this`cards, this`nextCard
      ensures r.Ok? <==> note in notes && (user, notes[note].deck) in rights.edit && desired != []
      ensures r.Ok? ==> Valid() && Does(Op.UpdateNote(user, note, desired), rights, old(Tables()), Tables())
    {
      if note !in notes || (user, notes[note].deck) !in rights.edit { return Err(NoRows); }
      ghost var s := Tables();
      r := SyncNoteCards(note, notes[note].deck, desired);
      if r.Ok? { NextKeepsInv(Op.UpdateNote(user, note, desired), rights, s, Tables()); }
    }

    /** The note, its owner and the cards filed in its old home deck move; other cards stay filed. */
    method MoveNote(user: int, note: int, target: int, rights: Rights) returns (r: Result<(), ContentError>)
      requires Valid()
      modifies this`notes, this`cards
      ensures r.Ok? <==> note in old(notes) && (user, old(notes)[note].deck) in rights.edit
                         && target in decks && (user, target) in rights.edit
                         && GuidFree(old(notes) - {note}, decks[target], old(notes)[note].guid)
      ensures r.Ok? ==> Valid() && Does(Op.MoveNote(user, note, target), rights, old(Tables()), Tables())
    {
      hide Inv, Refiled, Moved, Unique, UniqueGuid;
      InvUnique(Tables());
      if note !in notes || (user, notes[note].deck) !in rights.edit { return Err(NoRows); }
      var source := notes[note].deck;
      if target !in decks || (user, target) !in rights.edit { return Err(NoRows); }
      var row := Note(target, decks[target], notes[note].guid);
      if exists n :: n in notes && n != note && notes[n].owner == row.owner && notes[n].guid == row.guid {
        ghost var m :| m in notes && m != note && notes[m].owner == row.owner && notes[m].guid == row.guid;
        assert m in notes - {note};
        return Err(DuplicateGuid);
      }
      ghost var s := Tables();
      GuidStaysUnique(notes, note, row);
      notes := notes[note := row];
      cards := Moved(cards, note, source, target);
      MovedIsRefiled(s.cards, note, source, target);
      MoveKeepsInv(s, Tables(), Op.MoveNote(user, note, target), rights);
      r := Ok(());
    }

    // Notes the deck's deletion would leave without a card go first, with their cards.
    method DeleteNotesOrphanedByDeckDelete(deck: int)
      modifies this`notes, this`cards
      ensures notes == old(notes) - Doomed(old(notes), old(cards), deck)
      ensures cards == map id | id in old(cards) && old(cards)[id].note !in Doomed(old(notes), old(cards), deck) :: old(cards)[id]
    {
      var doomed := set n | n in notes
                            && (notes[n].deck == deck || exists id :: id in cards && cards[id].note == n && cards[id].deck == deck)
                            && !exists id :: id in cards && cards[id].note == n && cards[id].deck != deck;
      assert doomed == Doomed(notes, cards, deck);
      notes := notes - doomed;
      cards := map id | id in cards && cards[id].note !in doomed :: cards[id];
    }

    // Row by row: the UNIQUE constraint checks each new (owner, guid) on the spot.
    method RehomeNotesOffDeck(deck: int) returns (r: Result<(), ContentError>)
      requires UniqueGuid(notes) && deck in decks
      requires forall n :: n in notes && notes[n].deck == deck ==>
                             notes[n].owner == decks[deck] && HasCardElsewhere(cards, n, deck)
      requires forall id :: id in cards ==> cards[id].deck in decks
      modifies this`notes
      ensures r.Ok? ==> Rehoming(old(notes), notes, cards, decks, deck, Homed(old(notes), deck)) && UniqueGuid(notes)
      ensures r.Err? ==> r.error == DuplicateGuid && RehomeClash(old(notes), cards, decks, deck)
      ensures r.Err? ==> forall final :: Rehoming(old(notes), final, cards, decks, deck, Homed(old(notes), deck)) ==> !UniqueGuid(final)
    {
      var rows := Homed(notes, deck);
      var todo := rows;
      ghost var before := notes;
      while todo != {}
        invariant todo <= rows && UniqueGuid(notes) && before == old(notes) && rows == Homed(before, deck)
        invariant Rehoming(before, notes, cards, decks, deck, rows - todo)
      {
        var n := Rows.Pick(todo);
        var id := Lowest(cards, n, deck);
        var row := Note(cards[id].deck, decks[cards[id].deck], notes[n].guid);
        assert IsRehomed(row, before[n], n, cards, decks, deck);
        if exists m :: m in notes && m != n && notes[m].owner == row.owner && notes[m].guid == row.guid {
          ghost var other :| other in notes && other != n && notes[other].owner == row.owner && notes[other].guid == row.guid;
          forall final | Rehoming(before, final, cards, decks, deck, rows) ensures !UniqueGuid(final) {
            ClashLasts(before, notes, final, cards, decks, deck, rows - todo, rows, n, row, other);
          }
          ClashFound(before, notes, cards, decks, deck, rows - todo, n, id, other);
          return Err(DuplicateGuid);
        }
        GuidStaysUnique(notes, n, row);
        notes := notes[n := row];
        assert rows - (todo - {n}) == (rows - todo) + {n};
        todo := todo - {n};
      }
      assert rows - todo == rows;
      r := Ok(());
    }

    // RESTRICT on the home deck, CASCADE on the cards filed in it.
    method DeleteDeckRow(deck: int)
      requires forall n :: n in notes ==> notes[n].deck != deck
      modifies this`decks, this`cards
      ensures decks == old(decks) - {deck}
      ensures cards == map id | id in old(cards) && old(cards)[id].deck != deck :: old(cards)[id]
    {
      decks := decks - {deck};
      cards := map id | id in cards && cards[id].deck != deck :: cards[id];
    }

    // Steps two and three: orphaned notes go, the others are re-homed.
    method ClearNotes(deck: int) returns (r: Result<(), ContentError>, ghost kept: Notes)
      requires Inv(Tables()) && deck in decks
      modifies this`notes, this`cards
      ensures kept == old(notes) - Doomed(old(notes), old(cards), deck)
      ensures cards == map id | id in old(cards) && old(cards)[id].note !in Doomed(old(notes), old(cards), deck) :: old(cards)[id]
      ensures r.Ok? ==> Rehoming(kept, notes, cards, decks, deck, Homed(kept, deck)) && UniqueGuid(notes)
      ensures r.Ok? ==> forall n :: n in notes ==> notes[n].deck != deck
      ensures r.Err? ==> r.error == DuplicateGuid && GuidClash(old(Tables()), deck)
      ensures r.Err? ==> forall s' :: Deleted(old(Tables()), s', deck) ==> !UniqueGuid(s'.notes)
    {
      hide Inv, Deleted, Rehoming, Doomed, UniqueGuid, Homed, IsRehomed, HasCardElsewhere, RehomeClash, GuidClash;
      ghost var s := Tables();
      DeleteNotesOrphanedByDeckDelete(deck);
      kept := notes;
      RehomeReady(s, kept, cards, deck);
      r := RehomeNotesOffDeck(deck);
      if r.Err? {
        NoWayHome(s, kept, cards, deck);
        ClashBefore(s, kept, cards, deck);
      } else {
        RehomedAway(kept, notes, cards, decks, deck);
      }
    }

    /** DeleteDeck: refused exactly without the right; fails exactly when a note to be re-homed meets a
        note of the same guid with its new owner; otherwise leaves exactly what Deleted says. */
    method DeleteDeck(user: int, deck: int, rights: Rights) returns (r: Result<(), ContentError>)
      requires Valid()
      modifies this
      ensures r.Ok? ==> Valid() && Does(Op.DeleteDeck(user, deck), rights, old(Tables()), Tables())
      ensures r == Err(NoRows) <==> deck !in old(decks) || (user, deck) !in rights.delete_
      ensures r == Err(DuplicateGuid) <==>
              deck in old(decks) && (user, deck) in rights.delete_ && GuidClash(old(Tables()), deck)
      ensures r == Err(DuplicateGuid) ==> forall s' :: Deleted(old(Tables()), s', deck) ==> !UniqueGuid(s'.notes)
    {
      hide Inv, Deleted, Rehoming, Doomed, UniqueGuid, Homed, Does, GuidClash;
      if deck !in decks || (user, deck) !in rights.delete_ { return Err(NoRows); }
      ghost var s := Tables();
      ghost var kept;
      r, kept := ClearNotes(deck);
      if r.Err? { return; }
      ghost var left := cards;
      DeleteDeckRow(deck);
      DeleteDone(s, Tables(), kept, left, user, deck, rights);
    }
  }

  /** A deletion that fails on consistent tables: a note with a card in another owner's deck, which
      already holds a note of the same guid. */
  lemma DeleteCanFail(user: int)
    ensures exists s: State, rights: Rights ::
              Inv(s) && 1 in s.decks && (user, 1) in rights.delete_ && GuidClash(s, 1)
  {
    var notes := map[1 := Note(1, 10, 7), 2 := Note(2, 20, 7)];
    var cards := map[1 := Card(1, 1, 0, 1, None), 2 := Card(1, 2, 1, 2, None), 3 := Card(2, 1, 0, 2, None)];
    var s := State(map[1 := 10, 2 := 20], notes, cards);
    assert HasCard(cards, 1) && HasCard(cards, 2) by {
      assert cards[1].note == 1 && cards[3].note == 2;
    }
    assert cards[3].note == 2 && cards[3].deck == 2;
    assert HasCardElsewhere(cards, 2, 1);
    assert IsLowest(cards, 1, 1, 2);
    assert Clash(s, 1, 1, 2);
    var rights := Rights({}, {(user, 1)});
    assert Inv(s) && (user, 1) in rights.delete_;
  }
}
