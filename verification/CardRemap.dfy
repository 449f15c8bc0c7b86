/** Template edits over whole note types: the cards of every note are renumbered, deleted and added
    under UNIQUE (note, ordinal), one row write at a time (internal/db/cards.go,
    internal/db/cards.sql.go, internal/db/notetypes.go). */
module CardRemap {
  import opened Wrappers
  import opened Sorting
  import opened CardRows
  import opened EditPlan
  import Rows

  datatype Note = Note(noteType: int, deck: int)

  datatype Change = Change(template: int, ordinal: int)

  type Notes = map<int, Note>

  // A note's cards are made from the templates of its note type.
  ghost predicate Placed(cards: Cards, notes: Notes, noteType: int, order: Order) {
    forall id :: id in cards ==>
                   cards[id].note in notes
                   && (notes[cards[id].note].noteType == noteType <==> cards[id].template in order)
  }

  /** Every card of the note type carries its template's ordinal. */
  ghost predicate AtOrder(cards: Cards, order: Order) {
    forall id :: id in cards && cards[id].template in order ==> cards[id].ordinal == order[cards[id].template]
  }

  /** The tables between two statements: ordinals follow the given order, and no pair repeats. */
  ghost predicate Settled(cards: Cards, notes: Notes, noteType: int, order: Order) {
    Unique(cards) && Placed(cards, notes, noteType, order) && AtOrder(cards, order) && Injective(order)
  }

  // ---- One UPDATE of the ordinal column ----

  // The table once the rows in done have been written.
  function Written(cards: Cards, targets: map<int, int>, done: set<int>): Cards
    requires done <= targets.Keys
  {
    map id | id in cards :: if id in done then cards[id].(ordinal := targets[id]) else cards[id]
  }

  // No old or new ordinal of one row meets an old or new ordinal of another row of the note.
  ghost predicate Apart(cards: Cards, targets: map<int, int>) {
    forall a, b :: a in targets && a in cards && b in cards && a != b && cards[a].note == cards[b].note ==>
                     targets[a] != cards[b].ordinal && (b in targets ==> targets[a] != targets[b])
  }

  lemma WrittenUnique(cards: Cards, targets: map<int, int>, done: set<int>)
    requires done <= targets.Keys && Unique(cards) && Apart(cards, targets)
    ensures Unique(Written(cards, targets, done))
  {
  }

  // Both renumbering statements keep templates apart: the rows of one note have different templates.
  lemma RenumberApart(cards: Cards, notes: Notes, noteType: int, order: Order, to: Order, targets: map<int, int>)
    requires Settled(cards, notes, noteType, order) && to.Keys <= order.Keys
    requires forall s, t :: s in to && t in order && s != t ==>
                              to[s] != order[t] && (t in to ==> to[s] != to[t])
    requires forall id :: id in targets <==> id in cards && cards[id].template in to
    requires forall id :: id in targets ==> targets[id] == to[cards[id].template]
    ensures Apart(cards, targets)
  {
    forall a, b | a in targets && a in cards && b in cards && a != b && cards[a].note == cards[b].note
      ensures targets[a] != cards[b].ordinal && (b in targets ==> targets[a] != targets[b])
    {
      assert cards[b].template in order;
      assert cards[a].template != cards[b].template;
    }
  }

  // The order once the templates in to have moved.
  function Moved(order: Order, to: Order): Order { map t | t in order :: if t in to then to[t] else order[t] }

  function Without(order: Order, removed: set<int>): Order { map t | t in order && t !in removed :: order[t] }

  // SET ordinal = -(ordinal + 1), and SET ordinal = m.new_ordinal: what each row is to get.
  function OffsetTargets(cards: Cards, changed: seq<Change>): map<int, int> {
    map id | id in cards && cards[id].template in Targets(changed) :: -(cards[id].ordinal + 1)
  }

  function FinalTargets(cards: Cards, m: Order): map<int, int> {
    map id | id in cards && cards[id].template in m :: m[cards[id].template]
  }

  function Offset(cards: Cards, changed: seq<Change>): Cards {
    Written(cards, OffsetTargets(cards, changed), OffsetTargets(cards, changed).Keys)
  }

  function Finalized(cards: Cards, m: Order): Cards {
    Written(cards, FinalTargets(cards, m), FinalTargets(cards, m).Keys)
  }

  // ---- CreateCardsForNewTemplate ----

  function NotesOf(notes: Notes, noteType: int): set<int> {
    set n | n in notes && notes[n].noteType == noteType
  }

  // The notes of a type homed in a deck, up to one of them.
  function UpTo(notes: Notes, noteType: int, deck: int, note: int): set<int> {
    set n | n in notes && notes[n].noteType == noteType && notes[n].deck == deck && n <= note
  }

  // row_number() over the deck's notes in note-id order.
  function Rank(notes: Notes, noteType: int, note: int): nat
    requires note in notes
  {
    |UpTo(notes, noteType, notes[note].deck, note)|
  }

  // The row inserted for a note, numbered after everything its home deck held before the statement.
  ghost predicate IsNewCard(card: Card, before: Cards, notes: Notes, noteType: int, template: int, ordinal: int) {
    && card.note in NotesOf(notes, noteType)
    && card.template == template && card.ordinal == ordinal && card.deck == notes[card.note].deck
    && exists m :: IsDeckMax(before, card.deck, m)
                   && card.position == Some(Capped(m + Rank(notes, noteType, card.note)))
  }

  // Nothing that was there changed; what is new is one card for each of the given notes.
  ghost predicate Extends(before: Cards, after: Cards, notes: Notes, noteType: int, template: int, ordinal: int, done: set<int>) {
    && (forall id :: id in before ==> id in after && after[id] == before[id])
    && (forall id :: id in after && id !in before ==>
          after[id].note in done && IsNewCard(after[id], before, notes, noteType, template, ordinal))
    && (forall n :: n in done ==> exists id :: id in after && id !in before && after[id].note == n)
  }

  ghost predicate NoneAt(cards: Cards, notes: Notes, noteType: int, ordinal: int) {
    forall id :: id in cards && cards[id].note in NotesOf(notes, noteType) ==> cards[id].ordinal != ordinal
  }

  // One row more.
  lemma ExtendsOne(before: Cards, now: Cards, notes: Notes, noteType: int, template: int, ordinal: int, done: set<int>, id: int, card: Card)
    requires Extends(before, now, notes, noteType, template, ordinal, done) && id !in now
    requires IsNewCard(card, before, notes, noteType, template, ordinal)
    ensures Extends(before, now[id := card], notes, noteType, template, ordinal, done + {card.note})
  {
    var after := now[id := card];
    forall n | n in done + {card.note} ensures exists c :: c in after && c !in before && after[c].note == n {
      if n == card.note {
        assert id in after && id !in before;
      } else {
        var c :| c in now && c !in before && now[c].note == n;
        assert c in after;
      }
    }
  }

  // A note not yet served has nothing at the new ordinal, so the insert goes through.
  lemma InsertGoesThrough(before: Cards, now: Cards, notes: Notes, noteType: int, template: int, ordinal: int, done: set<int>, n: int)
    requires Extends(before, now, notes, noteType, template, ordinal, done) && Unique(now)
    requires NoneAt(before, notes, noteType, ordinal)
    requires n in NotesOf(notes, noteType) && n !in done
    ensures forall id :: id in now && now[id].note == n ==> now[id].ordinal != ordinal
    ensures forall id, card :: id !in now && Row(card, n, ordinal) ==> Unique(now[id := card])
  {
  }

  predicate Row(card: Card, note: int, ordinal: int) { card.note == note && card.ordinal == ordinal }

  lemma SettledAfterAdd(before: Cards, after: Cards, notes: Notes, noteType: int, order: Order, template: int, ordinal: int)
    requires Settled(before, notes, noteType, order) && template !in order && NoneAt(before, notes, noteType, ordinal)
    requires Extends(before, after, notes, noteType, template, ordinal, NotesOf(notes, noteType)) && Unique(after)
    requires forall t :: t in order ==> order[t] != ordinal
    requires forall id :: id in before ==> before[id].template != template
    ensures Settled(after, notes, noteType, order[template := ordinal])
  {
    var order' := order[template := ordinal];
    forall id | id in after
      ensures after[id].note in notes
      ensures notes[after[id].note].noteType == noteType <==> after[id].template in order'
      ensures after[id].template in order' ==> after[id].ordinal == order'[after[id].template]
    {
      if id in before { assert after[id] == before[id]; }
    }
  }

  // ---- The whole plan ----

  /** What an edit asks for: the order before and after, and what moved, went and came in between. */
  ghost predicate Asks(order: Order, changed: seq<Change>, removed: set<int>, added: seq<Change>, final: Order) {
    && Injective(order) && Injective(final)
    && (forall t :: t in order ==> order[t] >= 0) && (forall t :: t in final ==> final[t] >= 0)
    && removed <= order.Keys
    && (forall i, j :: 0 <= i < j < |added| ==> added[i].template != added[j].template)
    && (forall i :: 0 <= i < |added| ==> added[i].template !in order
                                         && added[i].template in final && final[added[i].template] == added[i].ordinal)
    && (forall i :: 0 <= i < |changed| ==> changed[i].template in order && changed[i].template !in removed
                                           && changed[i].template in final
                                           && final[changed[i].template] == changed[i].ordinal)
    && (forall t :: t in order && t !in removed ==>
          t in final && (final[t] == order[t] || t in Targets(changed)))
    && (forall t :: t in final ==> (t in order && t !in removed) || t in Targets(added))
  }

  function Targets(changes: seq<Change>): set<int> { set c | c in changes :: c.template }

  function MoveTo(changed: seq<Change>, final: Order): Order
    requires Targets(changed) <= final.Keys
  {
    map t | t in Targets(changed) :: final[t]
  }

  function StagedTo(changed: seq<Change>, order: Order): Order {
    map t | t in Targets(changed) && t in order :: -(order[t] + 1)
  }

  // The order the tables are in after offset, delete and the first k adds.
  function Stage(order: Order, changed: seq<Change>, removed: set<int>, added: seq<Change>, k: nat): Order
    requires k <= |added|
    decreases k
  {
    if k == 0 then Without(Moved(order, StagedTo(changed, order)), removed)
    else Stage(order, changed, removed, added, k - 1)[added[k - 1].template := added[k - 1].ordinal]
  }

  // While staged, moved templates are below zero and everything else is in its final place.
  lemma {:induction false} StageShape(order: Order, changed: seq<Change>, removed: set<int>, added: seq<Change>, final: Order, k: nat)
    requires Asks(order, changed, removed, added, final) && k <= |added|
    ensures var s := Stage(order, changed, removed, added, k);
            && (forall t :: t in s <==> (t in order && t !in removed) || t in Targets(added[..k]))
            && (forall t :: t in s && t in Targets(changed) ==> t in order && s[t] == -(order[t] + 1))
            && (forall t :: t in s && t !in Targets(changed) ==> t in final && s[t] == final[t])
            && Injective(s)
  {
    hide Asks, Targets, Injective;
    if k == 0 {
      StageShapeFirst(order, changed, removed, added, final);
    } else {
      StageShape(order, changed, removed, added, final, k - 1);
      NextAdded(order, changed, removed, added, final, k - 1);
      StageShapeNext(order, changed, removed, Stage(order, changed, removed, added, k - 1), added, final, k - 1);
    }
  }

  lemma StageShapeFirst(order: Order, changed: seq<Change>, removed: set<int>, added: seq<Change>, final: Order)
    requires Asks(order, changed, removed, added, final)
    ensures var s := Stage(order, changed, removed, added, 0);
            && (forall t :: t in s <==> (t in order && t !in removed) || t in Targets(added[..0]))
            && (forall t :: t in s && t in Targets(changed) ==> t in order && s[t] == -(order[t] + 1))
            && (forall t :: t in s && t !in Targets(changed) ==> t in final && s[t] == final[t])
            && Injective(s)
  {
    assert Targets(added[..0]) == {};
  }

  lemma StageShapeNext(order: Order, changed: seq<Change>, removed: set<int>, s: Order, added: seq<Change>, final: Order, k: nat)
    requires k < |added| && Injective(s)
    requires Targets(added[..k + 1]) == Targets(added[..k]) + {added[k].template}
    requires var t := added[k].template;
             && t !in order && t !in Targets(changed)
             && t in final && final[t] == added[k].ordinal >= 0
             && forall u :: u in final && u != t ==> final[u] != final[t]
    requires forall t :: t in order ==> order[t] >= 0
    requires forall t :: t in s <==> (t in order && t !in removed) || t in Targets(added[..k])
    requires forall t :: t in s && t in Targets(changed) ==> t in order && s[t] == -(order[t] + 1)
    requires forall t :: t in s && t !in Targets(changed) ==> t in final && s[t] == final[t]
    ensures var s' := s[added[k].template := added[k].ordinal];
            && (forall t :: t in s' <==> (t in order && t !in removed) || t in Targets(added[..k + 1]))
            && (forall t :: t in s' && t in Targets(changed) ==> t in order && s'[t] == -(order[t] + 1))
            && (forall t :: t in s' && t !in Targets(changed) ==> t in final && s'[t] == final[t])
            && Injective(s')
  {
    hide Targets;
  }

  // The next added template: new, final, and unlike anything standing.
  lemma NextAdded(order: Order, changed: seq<Change>, removed: set<int>, added: seq<Change>, final: Order, k: nat)
    requires Asks(order, changed, removed, added, final) && k < |added|
    ensures Targets(added[..k + 1]) == Targets(added[..k]) + {added[k].template}
    ensures var t := added[k].template;
            && t !in order && t !in Targets(changed) && t !in Targets(added[..k])
            && t in final && final[t] == added[k].ordinal >= 0
            && forall u :: u in final && u != t ==> final[u] != final[t]
    ensures forall t :: t in order ==> order[t] >= 0
  {
    assert added[..k + 1] == added[..k] + [added[k]];
  }

  // Each add finds its ordinal free: staged cards are below zero, the others are in their final place.
  lemma StageLeavesRoom(order: Order, changed: seq<Change>, removed: set<int>, added: seq<Change>, final: Order, k: nat)
    requires Asks(order, changed, removed, added, final) && k < |added|
    ensures added[k].template !in Stage(order, changed, removed, added, k)
    ensures forall t :: t in Stage(order, changed, removed, added, k) ==>
                          Stage(order, changed, removed, added, k)[t] != added[k].ordinal
  {
    StageShape(order, changed, removed, added, final, k);
    assert forall t :: t in Targets(added[..k]) ==> t != added[k].template;
    assert added[k].template !in Targets(changed);
  }

  lemma FinalStage(order: Order, changed: seq<Change>, removed: set<int>, added: seq<Change>, final: Order)
    requires Asks(order, changed, removed, added, final)
    ensures Targets(changed) <= final.Keys
    ensures Moved(Stage(order, changed, removed, added, |added|), MoveTo(changed, final)) == final
    ensures var s := Stage(order, changed, removed, added, |added|);
            forall a, b :: a in MoveTo(changed, final) && b in s && a != b ==>
                             final[a] != s[b] && (b in MoveTo(changed, final) ==> final[a] != final[b])
  {
    StageShape(order, changed, removed, added, final, |added|);
    assert added[..|added|] == added;
    var s, to := Stage(order, changed, removed, added, |added|), MoveTo(changed, final);
    forall t ensures t in Moved(s, to) <==> t in final
             ensures t in final ==> Moved(s, to)[t] == final[t]
    {
      assert t in s <==> (t in order && t !in removed) || t in Targets(added);
    }
  }

  // What is still there, has not changed except for its ordinal.
  ghost predicate Kept(before: Cards, after: Cards) {
    forall id :: id in before && id in after ==> after[id] == before[id].(ordinal := after[id].ordinal)
  }

  /** How far the plan has come: removed templates lost their cards, every other card is the row it
      was, and each of the first k added templates has its card on every note of the type. */
  ghost predicate Progress(before: Cards, now: Cards, notes: Notes, noteType: int, order: Order, removed: set<int>, added: seq<Change>, k: nat)
    requires k <= |added|
  {
    && (forall id :: id in before ==> (id in now <==> before[id].template !in removed))
    && Kept(before, now)
    && (forall id :: id in before && before[id].template !in order ==> id in now && now[id] == before[id])
    && (forall id :: id in now && id !in before ==>
          now[id].note in NotesOf(notes, noteType) && now[id].template in Targets(added[..k])
          && now[id].deck == notes[now[id].note].deck)
    && (forall n, j :: n in NotesOf(notes, noteType) && 0 <= j < k ==> HasNew(before, now, n, added[j].template))
    && QueuedLast(before, now)
  }

  ghost predicate HasNew(before: Cards, now: Cards, note: int, template: int) {
    exists id :: id in now && id !in before && now[id].note == note && now[id].template == template
  }

  lemma StillHasNew(before: Cards, now: Cards, after: Cards, note: int, template: int)
    requires HasNew(before, now, note, template)
    requires forall id :: id in now ==> id in after && after[id].note == now[id].note && after[id].template == now[id].template
    ensures HasNew(before, after, note, template)
  {
    var id :| id in now && id !in before && now[id].note == note && now[id].template == template;
    assert id in after;
  }

  // After a renumbering the rows are the same but for their ordinals.
  ghost predicate SameRows(now: Cards, after: Cards) {
    now.Keys == after.Keys && forall id :: id in now ==> after[id] == now[id].(ordinal := after[id].ordinal)
  }

  lemma QueuedStill(before: Cards, now: Cards, after: Cards)
    requires QueuedLast(before, now) && SameRows(now, after)
    ensures QueuedLast(before, after)
  {
    forall id, older | id in after && id !in before && older in before && older in after
                      && after[id].deck == after[older].deck && after[older].position.Some?
      ensures after[id].position.Some?
              && (after[older].position.value < after[id].position.value || after[id].position.value == MAX_POSITION)
    {
      assert id in now && older in now;
    }
  }

  lemma ProgressRenumber(before: Cards, now: Cards, after: Cards, notes: Notes, noteType: int, order: Order, removed: set<int>, added: seq<Change>, k: nat)
    requires k <= |added| && Progress(before, now, notes, noteType, order, removed, added, k)
    requires SameRows(now, after)
    requires forall id :: id in before && before[id].template !in order && id in now ==> after[id] == now[id]
    ensures Progress(before, after, notes, noteType, order, removed, added, k)
  {
    QueuedStill(before, now, after);
    forall n, j | n in NotesOf(notes, noteType) && 0 <= j < k ensures HasNew(before, after, n, added[j].template) {
      StillHasNew(before, now, after, n, added[j].template);
    }
  }

  lemma ProgressAdd(before: Cards, now: Cards, after: Cards, notes: Notes, noteType: int, order: Order, removed: set<int>, added: seq<Change>, k: nat)
    requires k < |added| && Progress(before, now, notes, noteType, order, removed, added, k)
    requires Extends(now, after, notes, noteType, added[k].template, added[k].ordinal, NotesOf(notes, noteType))
    requires forall id :: id in after && id !in now ==> id !in before
    ensures Progress(before, after, notes, noteType, order, removed, added, k + 1)
  {
    assert added[..k + 1] == added[..k] + [added[k]];
    forall id, older | id in after && id !in before && older in before && older in after
                      && after[id].deck == after[older].deck && after[older].position.Some?
      ensures after[id].position.Some?
              && (after[older].position.value < after[id].position.value || after[id].position.value == MAX_POSITION)
    {
      assert older in now;
      if id !in now { NewCardLast(now, after[id], notes, noteType, added[k], older); }
    }
    forall n, j | n in NotesOf(notes, noteType) && 0 <= j < k + 1 ensures HasNew(before, after, n, added[j].template) {
      if j < k {
        StillHasNew(before, now, after, n, added[j].template);
      } else {
        var id :| id in after && id !in now && after[id].note == n;
        assert after[id].template == added[k].template;
      }
    }
  }

  lemma NewCardLast(now: Cards, card: Card, notes: Notes, noteType: int, c: Change, older: int)
    requires IsNewCard(card, now, notes, noteType, c.template, c.ordinal)
    requires older in now && now[older].deck == card.deck && now[older].position.Some?
    ensures card.position.Some?
    ensures now[older].position.value < card.position.value || card.position.value == MAX_POSITION
  {
    var m :| IsDeckMax(now, card.deck, m) && card.position == Some(Capped(m + Rank(notes, noteType, card.note)));
    RankPositive(notes, noteType, card.note);
    assert now[older].position.value <= m;
  }

  predicate HomedAlike(notes: Notes, noteType: int, a: int, b: int) {
    a in notes && b in notes && notes[a].noteType == noteType && notes[b].noteType == noteType && notes[a].deck == notes[b].deck
  }

  lemma LargerSet<T>(a: set<T>, b: set<T>, x: T)
    requires a <= b && x in b && x !in a
    ensures |a| < |b|
  {
    var c := b - {x};
    assert a <= c && |c| == |b| - 1;
    assert c == a + (c - a);
    assert |c| == |a| + |c - a|;
  }

  /** Within a deck new cards are numbered in note order. */
  lemma RankInNoteOrder(notes: Notes, noteType: int, a: int, b: int)
    requires HomedAlike(notes, noteType, a, b)
    ensures a < b <==> Rank(notes, noteType, a) < Rank(notes, noteType, b)
  {
    if a < b {
      LargerSet(UpTo(notes, noteType, notes[a].deck, a), UpTo(notes, noteType, notes[a].deck, b), b);
    } else if b < a {
      LargerSet(UpTo(notes, noteType, notes[a].deck, b), UpTo(notes, noteType, notes[a].deck, a), a);
    }
  }

  /** And consecutively, from one: behind each note but the first there is the one numbered just before. */
  lemma RankIsConsecutive(notes: Notes, noteType: int, note: int) returns (previous: int)
    requires note in NotesOf(notes, noteType)
    ensures Rank(notes, noteType, note) >= 1
    ensures Rank(notes, noteType, note) > 1 ==>
              HomedAlike(notes, noteType, previous, note) && Rank(notes, noteType, previous) == Rank(notes, noteType, note) - 1
  {
    var deck := notes[note].deck;
    var all := UpTo(notes, noteType, deck, note);
    var before := all - {note};
    assert note in all && |before| == |all| - 1;
    previous := note;
    if before != {} {
      previous := Greatest(before);
      assert UpTo(notes, noteType, deck, previous) == before;
    }
  }

  /** A card a new template brings stands behind the deck's highest position by as many places as the
      deck has notes of the type up to the card's. */
  lemma NewCardPlace(before: Cards, after: Cards, notes: Notes, noteType: int, template: int, ordinal: int, done: set<int>, x: int, m: int)
    requires Extends(before, after, notes, noteType, template, ordinal, done) && x in after && x !in before
    requires IsDeckMax(before, after[x].deck, m)
    ensures var note := after[x].note;
            note in notes && after[x].deck == notes[note].deck
            && var place := m + |set n | n in notes && notes[n].noteType == noteType && notes[n].deck == notes[note].deck && n <= note|;
               after[x].position == Some(if place <= MAX_POSITION then place else MAX_POSITION)
  {
    var card := after[x];
    assert IsNewCard(card, before, notes, noteType, template, ordinal);
    var k :| IsDeckMax(before, card.deck, k) && card.position == Some(Capped(k + Rank(notes, noteType, card.note)));
    DeckMaxIsOne(before, card.deck, m, k);
    hide IsDeckMax, Extends, IsNewCard;
    assert UpTo(notes, noteType, card.deck, card.note) ==
           set n | n in notes && notes[n].noteType == noteType && notes[n].deck == notes[card.note].deck && n <= card.note;
  }

  /** So the cards a new template brings into one deck follow each other in note order. */
  lemma NewCardsInNoteOrder(before: Cards, after: Cards, notes: Notes, noteType: int, template: int, ordinal: int, done: set<int>, x: int, y: int)
    requires Extends(before, after, notes, noteType, template, ordinal, done)
    requires x in after && y in after && x !in before && y !in before && after[x].deck == after[y].deck
    requires after[x].note < after[y].note
    ensures after[x].position.Some? && after[y].position.Some?
    ensures after[x].position.value < after[y].position.value || after[y].position.value == MAX_POSITION
  {
    var a, b := after[x], after[y];
    assert IsNewCard(a, before, notes, noteType, template, ordinal) && IsNewCard(b, before, notes, noteType, template, ordinal);
    hide Extends, IsDeckMax, Rank;
    var m :| IsDeckMax(before, a.deck, m) && a.position == Some(Capped(m + Rank(notes, noteType, a.note)));
    var k :| IsDeckMax(before, b.deck, k) && b.position == Some(Capped(k + Rank(notes, noteType, b.note)));
    DeckMaxIsOne(before, a.deck, m, k);
    RankInNoteOrder(notes, noteType, a.note, b.note);
  }

  lemma RankPositive(notes: Notes, noteType: int, note: int)
    requires note in NotesOf(notes, noteType)
    ensures Rank(notes, noteType, note) > 0
  {
    var s := UpTo(notes, noteType, notes[note].deck, note);
    assert note in s;
    assert |s - {note}| == |s| - 1;
  }

  ghost predicate Unused(cards: Cards, template: int) {
    forall id :: id in cards ==> cards[id].template != template
  }

  lemma ChangedKnown(order: Order, changed: seq<Change>, removed: set<int>, added: seq<Change>, final: Order)
    requires Asks(order, changed, removed, added, final)
    ensures Targets(changed) <= order.Keys && Targets(changed) <= final.Keys && removed <= order.Keys
    ensures (forall t :: t in order ==> order[t] >= 0) && forall c :: c in changed ==> final[c.template] == c.ordinal
    ensures Stage(order, changed, removed, added, 0) == Without(Moved(order, StagedTo(changed, order)), removed)
  {
  }

  lemma NothingMoves(order: Order, final: Order)
    ensures Targets([]) <= final.Keys && Moved(order, MoveTo([], final)) == order
  {
    assert Targets([]) == {} && MoveTo([], final) == map[];
  }

  lemma ChangedStaged(order: Order, changed: seq<Change>, removed: set<int>, added: seq<Change>, final: Order)
    requires Asks(order, changed, removed, added, final)
    ensures Targets(changed) <= Stage(order, changed, removed, added, |added|).Keys
    ensures Targets(changed) <= final.Keys && forall c :: c in changed ==> final[c.template] == c.ordinal
  {
    StageShape(order, changed, removed, added, final, |added|);
    ChangedKnown(order, changed, removed, added, final);
  }

  lemma DeletedSettled(cards: Cards, after: Cards, notes: Notes, noteType: int, order: Order, removed: set<int>)
    requires Settled(cards, notes, noteType, order)
    requires after == map id | id in cards && cards[id].template !in removed :: cards[id]
    ensures Settled(after, notes, noteType, Without(order, removed))
  {
  }

  lemma VacatedProgress(before: Cards, offset: Cards, after: Cards, notes: Notes, noteType: int, order: Order, removed: set<int>, added: seq<Change>)
    requires SameRows(before, offset) && removed <= order.Keys
    requires forall id :: id in before && before[id].template !in order ==> offset[id] == before[id]
    requires after == map id | id in offset && offset[id].template !in removed :: offset[id]
    ensures Progress(before, after, notes, noteType, order, removed, added, 0)
    ensures after.Keys <= before.Keys && Kept(before, after)
  {
  }

  lemma RoomForAll(cards: Cards, notes: Notes, noteType: int, order: Order, ordinal: int)
    requires Settled(cards, notes, noteType, order) && forall t :: t in order ==> order[t] != ordinal
    ensures NoneAt(cards, notes, noteType, ordinal)
  {
  }

  lemma StillUnused(now: Cards, after: Cards, notes: Notes, noteType: int, added: seq<Change>, k: nat)
    requires k < |added| && forall i, j :: 0 <= i < j < |added| ==> added[i].template != added[j].template
    requires forall j :: k <= j < |added| ==> Unused(now, added[j].template)
    requires Extends(now, after, notes, noteType, added[k].template, added[k].ordinal, NotesOf(notes, noteType))
    ensures forall j :: k + 1 <= j < |added| ==> Unused(after, added[j].template)
  {
    forall j, id | k + 1 <= j < |added| && id in after ensures after[id].template != added[j].template {
      if id in now { assert after[id] == now[id]; }
    }
  }

  lemma ProgressKept(before: Cards, now: Cards, notes: Notes, noteType: int, order: Order, removed: set<int>, added: seq<Change>)
    requires Progress(before, now, notes, noteType, order, removed, added, |added|)
    ensures Kept(before, now)
  {
  }

  lemma FinalKeepsOthers(before: Cards, now: Cards, changed: seq<Change>, order: Order, final: Order)
    requires Targets(changed) <= final.Keys && Targets(changed) <= order.Keys && Kept(before, now)
    ensures var after := Finalized(now, MoveTo(changed, final));
            SameRows(now, after)
            && forall id :: id in before && before[id].template !in order && id in now ==> after[id] == now[id]
  {
    forall id | id in before && before[id].template !in order && id in now
      ensures id !in FinalTargets(now, MoveTo(changed, final))
    {
      assert now[id] == before[id].(ordinal := now[id].ordinal);
    }
  }

  lemma FewerRows(before: Cards, after: Cards, next: int, added: seq<Change>)
    requires Kept(before, after) && after.Keys <= before.Keys && Numbered(before, next)
    requires forall j :: 0 <= j < |added| ==> Unused(before, added[j].template)
    ensures Numbered(after, next) && forall j :: 0 <= j < |added| ==> Unused(after, added[j].template)
  {
    forall j, id | 0 <= j < |added| && id in after ensures after[id].template != added[j].template {
      assert after[id] == before[id].(ordinal := after[id].ordinal);
    }
  }

  // ---- From a submitted list of templates to the plan ----

  /** What an edit makes of the cards, whichever way the templates moved: cards of templates gone are
      gone, every other card is the row it was at its template's new place, each new template has a
      card on every note of the type, filed last in the note's home deck. */
  ghost predicate Reconciled(before: Cards, after: Cards, notes: Notes, noteType: int, order: Order, final: Order) {
    && (forall id :: id in before ==>
          (id in after <==> before[id].template in final || before[id].template !in order))
    && (forall id :: id in before && id in after ==>
          after[id] == if before[id].template in order then before[id].(ordinal := final[before[id].template]) else before[id])
    && (forall id :: id in after && id !in before ==>
          after[id].note in NotesOf(notes, noteType) && after[id].template in final && after[id].template !in order
          && after[id].ordinal == final[after[id].template] && after[id].deck == notes[after[id].note].deck)
    && (forall n, t :: n in NotesOf(notes, noteType) && t in final && t !in order ==> HasNew(before, after, n, t))
    && QueuedLast(before, after) && Unique(after)
  }

  lemma ProgressReconciles(before: Cards, after: Cards, notes: Notes, noteType: int, order: Order, changed: seq<Change>, removed: set<int>, added: seq<Change>, final: Order)
    requires Asks(order, changed, removed, added, final)
    requires Progress(before, after, notes, noteType, order, removed, added, |added|)
    requires Settled(after, notes, noteType, final)
    ensures Reconciled(before, after, notes, noteType, order, final)
  {
    assert added[..|added|] == added;
    forall id | id in before && id in after
      ensures after[id] == if before[id].template in order then before[id].(ordinal := final[before[id].template]) else before[id]
    {
      assert after[id] == before[id].(ordinal := after[id].ordinal);
    }
    forall n, t | n in NotesOf(notes, noteType) && t in final && t !in order ensures HasNew(before, after, n, t) {
      assert t in Targets(added);
      var j :| 0 <= j < |added| && added[j].template == t;
      assert HasNew(before, after, n, added[j].template);
    }
  }

  ghost predicate ListsMoved(changed: seq<Change>, submitted: seq<Entry>, kept: seq<int>, ids: seq<int>)
    requires |ids| <= |submitted| == |kept|
  {
    && (forall c :: c in changed ==> 0 <= c.ordinal < |ids| && ids[c.ordinal] == c.template
                                     && submitted[c.ordinal].Some? && kept[c.ordinal] != c.ordinal)
    && (forall j :: 0 <= j < |ids| && submitted[j].Some? && kept[j] != j ==> Change(ids[j], j) in changed)
  }

  ghost predicate ListsAdded(added: seq<Change>, submitted: seq<Entry>, ids: seq<int>)
    requires |ids| <= |submitted|
  {
    && (forall c :: c in added ==> 0 <= c.ordinal < |ids| && ids[c.ordinal] == c.template && submitted[c.ordinal].None?)
    && (forall j :: 0 <= j < |ids| && submitted[j].None? ==> Change(ids[j], j) in added)
    && (forall i, j :: 0 <= i < j < |added| ==> added[i].template != added[j].template)
  }

  lemma FinalIds(t0: Table, t1: Table, next0: int, next1: int, noteType: int, existing: seq<Slot>, submitted: seq<Entry>, plan: Plan, ids: seq<int>)
    requires Lists(existing, OrderOf(t0, noteType)) && Splits(plan, existing, submitted) && Acceptable(existing, submitted)
    requires |ids| == |submitted| && Applied(t0, t1, next0, next1, noteType, submitted, plan.keptOldOrdinal, ids)
    requires forall t :: t in t0 ==> t < next0
    ensures var final := OrderOf(t1 - SetOf(plan.removed), noteType);
            && (forall t :: t in final <==> t in ids)
            && (forall j :: 0 <= j < |ids| ==> final[ids[j]] == j)
    ensures SetOf(plan.removed) <= OrderOf(t0, noteType).Keys
    ensures forall j :: 0 <= j < |ids| && submitted[j].Some? ==>
                          ids[j] in OrderOf(t0, noteType) && ids[j] !in plan.removed
                          && OrderOf(t0, noteType)[ids[j]] == plan.keptOldOrdinal[j]
  {
    var order, final := OrderOf(t0, noteType), OrderOf(t1 - SetOf(plan.removed), noteType);
    forall id ensures id in Ids(existing) <==> id in order {
      if id in order { assert Slot(id, order[id]) in existing; }
    }
    forall t | t in SetOf(plan.removed) ensures t in order {
      assert t in Ids(existing);
    }
    forall j | 0 <= j < |ids|
      ensures ids[j] !in plan.removed && ids[j] in final && final[ids[j]] == j
      ensures submitted[j].Some? ==> ids[j] in order && order[ids[j]] == plan.keptOldOrdinal[j]
    {
      if submitted[j].Some? {
        assert Slot(ids[j], plan.keptOldOrdinal[j]) in existing;
        assert Some(ids[j]) in submitted;
      }
    }
    forall t | t in final ensures t in ids {
      if t in t0 {
        assert t in order && t in Ids(existing) && t !in plan.removed;
        var j :| 0 <= j < |submitted| && submitted[j] == Some(t);
        assert ids[j] == t;
      }
    }
  }

  lemma PlanAsks(t0: Table, t1: Table, next0: int, next1: int, noteType: int, existing: seq<Slot>, submitted: seq<Entry>, plan: Plan, ids: seq<int>, changed: seq<Change>, added: seq<Change>)
    requires Lists(existing, OrderOf(t0, noteType)) && Splits(plan, existing, submitted) && Acceptable(existing, submitted)
    requires |ids| == |submitted| && Applied(t0, t1, next0, next1, noteType, submitted, plan.keptOldOrdinal, ids)
    requires ListsMoved(changed, submitted, plan.keptOldOrdinal, ids) && ListsAdded(added, submitted, ids)
    requires forall t :: t in t0 ==> t < next0
    ensures var order, final := OrderOf(t0, noteType), OrderOf(t1 - SetOf(plan.removed), noteType);
            && Asks(order, changed, SetOf(plan.removed), added, final) && Submitted(final, submitted, order)
  {
    var order, final := OrderOf(t0, noteType), OrderOf(t1 - SetOf(plan.removed), noteType);
    FinalIds(t0, t1, next0, next1, noteType, existing, submitted, plan, ids);
    forall t | t in final
      ensures 0 <= final[t] < |ids| && ids[final[t]] == t
      ensures (t in order && t !in plan.removed) || t in Targets(added)
    {
      var j :| 0 <= j < |ids| && ids[j] == t;
      if submitted[j].None? { assert Change(t, j) in added; }
    }
    forall t | t in order && t !in plan.removed ensures t in final && (final[t] == order[t] || t in Targets(changed)) {
      assert Slot(t, order[t]) in existing;
      assert Some(t) in submitted;
      var j :| 0 <= j < |submitted| && submitted[j] == Some(t);
      assert ids[j] == t;
      if order[t] != j { assert Change(t, j) in changed; }
    }
    forall j | 0 <= j < |submitted| && submitted[j].None? ensures exists t :: t in final && t !in order && final[t] == j {
      assert ids[j] in final && final[ids[j]] == j;
    }
    forall i | 0 <= i < |added|
      ensures added[i].template !in order && added[i].template in final && final[added[i].template] == added[i].ordinal
    {
      assert added[i] in added;
    }
    forall i | 0 <= i < |changed|
      ensures changed[i].template in order && changed[i].template !in plan.removed
      ensures changed[i].template in final && final[changed[i].template] == changed[i].ordinal
    {
      assert changed[i] in changed;
    }
  }

  lemma ListsMovedEntry(changed: seq<Change>, submitted: seq<Entry>, kept: seq<int>, ids: seq<int>, id: int)
    requires |ids| < |submitted| == |kept| && ListsMoved(changed, submitted, kept, ids)
    ensures ListsMoved(if submitted[|ids|].Some? && kept[|ids|] != |ids| then changed + [Change(id, |ids|)] else changed,
                       submitted, kept, ids + [id])
  {
    var n := |ids|;
    var moved := if submitted[n].Some? && kept[n] != n then changed + [Change(id, n)] else changed;
    forall j | 0 <= j < n + 1 && submitted[j].Some? && kept[j] != j ensures Change((ids + [id])[j], j) in moved {
      if j < n {
        assert Change(ids[j], j) in changed;
      } else {
        assert moved[|changed|] == Change(id, n);
      }
    }
  }

  lemma ListsAddedEntry(added: seq<Change>, submitted: seq<Entry>, ids: seq<int>, id: int)
    requires |ids| < |submitted| && ListsAdded(added, submitted, ids) && id !in ids
    ensures ListsAdded(if submitted[|ids|].None? then added + [Change(id, |ids|)] else added, submitted, ids + [id])
  {
    var n := |ids|;
    var added' := if submitted[n].None? then added + [Change(id, n)] else added;
    var ids' := ids + [id];
    forall j | 0 <= j < |ids'| && submitted[j].None? ensures Change(ids'[j], j) in added' {
      if j < n {
        assert Change(ids[j], j) in added;
      } else {
        assert added'[|added|] == Change(id, n);
      }
    }
    forall c | c in added'
      ensures 0 <= c.ordinal < |ids'| && ids'[c.ordinal] == c.template && submitted[c.ordinal].None?
    {
      if c in added { assert ids'[c.ordinal] == ids[c.ordinal]; }
    }
    forall i | 0 <= i < |added| ensures added[i].template != id {
      assert added[i] in added;
    }
  }

  lemma NothingListed(submitted: seq<Entry>, kept: seq<int>)
    requires |kept| == |submitted|
    ensures ListsMoved([], submitted, kept, []) && ListsAdded([], submitted, [])
  {
  }

  lemma AddedUnused(cards: Cards, t0: Table, noteType: int, next0: int, next1: int, t1: Table, submitted: seq<Entry>, kept: seq<int>, ids: seq<int>, added: seq<Change>)
    requires Applied(t0, t1, next0, next1, noteType, submitted, kept, ids) && ListsAdded(added, submitted, ids)
    requires forall t :: t in t0 ==> t < next0
    requires forall id :: id in cards ==> cards[id].template in t0
    ensures forall j :: 0 <= j < |added| ==> Unused(cards, added[j].template)
  {
    forall j | 0 <= j < |added| ensures Unused(cards, added[j].template) {
      assert added[j] in added;
    }
  }

  // With nothing moved, removed or added the order is the old one.
  lemma NothingAsked(t1: Table, noteType: int, plan: Plan, order: Order, changed: seq<Change>, added: seq<Change>, final: Order)
    requires Asks(order, changed, SetOf(plan.removed), added, final)
    requires plan.removed == [] && changed == [] && added == []
    requires final == OrderOf(t1 - SetOf(plan.removed), noteType)
    ensures final == order && OrderOf(t1, noteType) == final && SetOf(plan.removed) == {} && t1 - SetOf(plan.removed) == t1
  {
    assert Targets(changed) == {} && Targets(added) == {};
    assert SetOf(plan.removed) == {} && t1 - {} == t1;
    forall t ensures t in final <==> t in order
             ensures t in order ==> final[t] == order[t]
    {
      assert t !in Targets(changed) && t !in Targets(added);
    }
  }

  lemma NothingToDo(cards: Cards, notes: Notes, noteType: int, order: Order, added: seq<Change>)
    requires added == []
    ensures Progress(cards, cards, notes, noteType, order, {}, added, |added|)
  {
  }

  /** Each note has exactly one card for a new template. */
  lemma OneCardEach(before: Cards, after: Cards, notes: Notes, noteType: int, order: Order, final: Order, a: int, b: int)
    requires Reconciled(before, after, notes, noteType, order, final)
    requires a in after && b in after && a !in before && b !in before
    requires after[a].note == after[b].note && after[a].template == after[b].template
    ensures a == b
  {
    assert after[a].ordinal == after[b].ordinal;
  }

  lemma SettledUnique(cards: Cards, notes: Notes, noteType: int, order: Order)
    requires Settled(cards, notes, noteType, order)
    ensures Unique(cards)
  {
  }

  lemma FinalTargetsAre(cards: Cards, m: Order)
    ensures var targets := FinalTargets(cards, m);
            && targets.Keys <= cards.Keys && (forall id :: id in targets <==> id in cards && cards[id].template in m)
            && (forall id :: id in targets ==> targets[id] == m[cards[id].template])
    ensures Finalized(cards, m).Keys == cards.Keys
  {
  }

  lemma MoveToKeys(changed: seq<Change>, final: Order, order: Order)
    requires Targets(changed) <= final.Keys && Targets(changed) <= order.Keys
    ensures MoveTo(changed, final).Keys <= order.Keys
    ensures forall t :: t in MoveTo(changed, final) ==> t in final && MoveTo(changed, final)[t] == final[t]
  {
  }

  // Cards written to the new places of their templates stand settled there.
  lemma FinalizedSettled(before: Cards, after: Cards, notes: Notes, noteType: int, order: Order, m: Order)
    requires Settled(before, notes, noteType, order) && after == Finalized(before, m) && Unique(after) && m.Keys <= order.Keys
    requires forall a, b :: a in m && b in order && a != b ==> m[a] != order[b] && (b in m ==> m[a] != m[b])
    ensures Settled(after, notes, noteType, Moved(order, m))
  {
    hide Unique;
  }

  // The template ids and new ordinals of an UPDATE ... FROM unnest.
  method ChangeMap(changed: seq<Change>, ghost final: Order) returns (m: map<int, int>)
    requires Targets(changed) <= final.Keys && forall c :: c in changed ==> final[c.template] == c.ordinal
    ensures m == MoveTo(changed, final)
  {
    m := map[];
    for i := 0 to |changed|
      invariant m.Keys == Targets(changed[..i])
      invariant forall t :: t in m ==> t in final && m[t] == final[t]
    {
      assert changed[..i + 1] == changed[..i] + [changed[i]];
      assert changed[i] in changed;
      m := m[changed[i].template := changed[i].ordinal];
    }
    assert changed[..|changed|] == changed;
  }

  class CardTables {
    var cards: Cards
    var notes: Notes
    var templates: Table
    var nextCard: int
    var nextTemplate: int

    // One row write, which the UNIQUE constraint checks on the spot.
    method WriteOrdinal(id: int, ordinal: int)
      requires id in cards && Unique(cards)
      requires forall other :: other in cards && other != id && cards[other].note == cards[id].note ==>
                                 cards[other].ordinal != ordinal
      modifies this`cards
      ensures cards == old(cards)[id := old(cards)[id].(ordinal := ordinal)] && Unique(cards)
    {
      cards := cards[id := cards[id].(ordinal := ordinal)];
    }

    /** An UPDATE of the ordinal column: rows are written one by one in whatever order, and the
        constraint holds after every single write. */
    method UpdateOrdinals(targets: map<int, int>)
      requires targets.Keys <= cards.Keys && Unique(cards) && Apart(cards, targets)
      modifies this`cards
      ensures cards == Written(old(cards), targets, targets.Keys) && Unique(cards)
    {
      var todo := targets.Keys;
      assert Written(cards, targets, {}) == cards;
      while todo != {}
        invariant todo <= targets.Keys && Unique(cards)
        invariant cards == Written(old(cards), targets, targets.Keys - todo)
      {
        var id := Rows.Pick(todo);
        WrittenUnique(old(cards), targets, targets.Keys - todo);
        WriteOrdinal(id, targets[id]);
        todo := todo - {id};
        assert cards == Written(old(cards), targets, targets.Keys - todo);
      }
      assert targets.Keys - todo == targets.Keys;
    }

    method OffsetCardOrdinalsForTemplates(changed: seq<Change>, noteType: int, ghost order: Order)
      requires Settled(cards, notes, noteType, order)
      requires forall t :: t in order ==> order[t] >= 0
      requires Targets(changed) <= order.Keys
      modifies this`cards
      ensures Settled(cards, notes, noteType, Moved(order, StagedTo(changed, order)))
      ensures cards == Offset(old(cards), changed)
    {
      var targets := OffsetTargets(cards, changed);
      ghost var to := StagedTo(changed, order);
      RenumberApart(cards, notes, noteType, order, to, targets);
      UpdateOrdinals(targets);
    }

    method FinalizeCardOrdinalsForTemplates(changed: seq<Change>, noteType: int, ghost order: Order, ghost final: Order)
      requires Settled(cards, notes, noteType, order)
      requires Targets(changed) <= order.Keys && Targets(changed) <= final.Keys
      requires forall c :: c in changed ==> final[c.template] == c.ordinal
      requires forall a, b :: a in MoveTo(changed, final) && b in order && a != b ==>
                                final[a] != order[b] && (b in MoveTo(changed, final) ==> final[a] != final[b])
      modifies this`cards
      ensures Settled(cards, notes, noteType, Moved(order, MoveTo(changed, final)))
      ensures cards == Finalized(old(cards), MoveTo(changed, final))
      ensures Numbered(old(cards), nextCard) ==> Numbered(cards, nextCard)
    {
      hide Settled, Unique, Apart, Written, FinalTargets, MoveTo, Moved, Targets;
      ghost var before := cards;
      var m := ChangeMap(changed, final);
      var targets := FinalTargets(cards, m);
      SettledUnique(cards, notes, noteType, order);
      FinalTargetsAre(cards, m);
      MoveToKeys(changed, final, order);
      RenumberApart(cards, notes, noteType, order, m, targets);
      UpdateOrdinals(targets);
      FinalizedSettled(before, cards, notes, noteType, order, m);
    }

    method DeleteCardsForTemplates(removed: set<int>)
      modifies this`cards
      ensures cards == map id | id in old(cards) && old(cards)[id].template !in removed :: old(cards)[id]
    {
      cards := map id | id in cards && cards[id].template !in removed :: cards[id];
    }

    // ON DELETE RESTRICT: no card may still point at a deleted template.
    method DeleteTemplatesByIDs(removed: set<int>)
      requires forall id :: id in cards ==> cards[id].template !in removed
      modifies this`templates
      ensures templates == old(templates) - removed
    {
      templates := templates - removed;
    }

    // The row for one note, numbered from the positions the statement started with.
    method InsertCard(before: Cards, note: int, template: int, ordinal: int, noteType: int, ghost done: set<int>) returns (inserted: bool)
      requires Unique(cards) && Numbered(cards, nextCard) && NoneAt(before, notes, noteType, ordinal)
      requires Extends(before, cards, notes, noteType, template, ordinal, done)
      requires note in NotesOf(notes, noteType) && note !in done
      modifies this`cards, this`nextCard
      ensures inserted && nextCard == old(nextCard) + 1
      ensures old(nextCard) in cards && cards == old(cards)[old(nextCard) := cards[old(nextCard)]]
      ensures Unique(cards) && Numbered(cards, nextCard)
      ensures Extends(before, cards, notes, noteType, template, ordinal, done + {note})
    {
      inserted := !exists id :: id in cards && cards[id].note == note && cards[id].ordinal == ordinal;
      InsertGoesThrough(before, cards, notes, noteType, template, ordinal, done, note);
      if inserted {
        var m := DeckMax(before, notes[note].deck);
        var card := Card(note, template, ordinal, notes[note].deck, Some(Capped(m + Rank(notes, noteType, note))));
        assert Row(card, note, ordinal) && IsNewCard(card, before, notes, noteType, template, ordinal);
        hide Extends, NoneAt, IsNewCard, Unique;
        ExtendsOne(before, cards, notes, noteType, template, ordinal, done, nextCard, card);
        cards := cards[nextCard := card];
        nextCard := nextCard + 1;
      }
    }

    /** One card per note of the type, in whatever order, skipping a note whose ordinal is taken: the
        skip never fires. */
    method CreateCardsForNewTemplate(template: int, ordinal: int, noteType: int) returns (affected: nat)
      requires Unique(cards) && Numbered(cards, nextCard) && NoneAt(cards, notes, noteType, ordinal)
      modifies this`cards, this`nextCard
      ensures Unique(cards) && Numbered(cards, nextCard) && nextCard >= old(nextCard)
      ensures Extends(old(cards), cards, notes, noteType, template, ordinal, NotesOf(notes, noteType))
      ensures forall id :: id in cards && id !in old(cards) ==> id >= old(nextCard)
      ensures affected == |NotesOf(notes, noteType)|
    {
      var targets := NotesOf(notes, noteType);
      var todo, before := targets, cards;
      affected := 0;
      while todo != {}
        invariant todo <= targets && affected + |todo| == |targets| && old(nextCard) <= nextCard
        invariant Unique(cards) && Numbered(cards, nextCard)
        invariant Extends(before, cards, notes, noteType, template, ordinal, targets - todo)
        invariant forall id :: id in cards && id !in before ==> id >= old(nextCard)
      {
        var n := Rows.Pick(todo);
        var inserted := InsertCard(before, n, template, ordinal, noteType, targets - todo);
        assert targets - todo + {n} == targets - (todo - {n});
        todo := todo - {n};
        if inserted { affected := affected + 1; }
      }
      assert targets - todo == targets;
    }

    method OffsetMoved(noteType: int, changed: seq<Change>, ghost order: Order)
      requires Settled(cards, notes, noteType, order) && forall t :: t in order ==> order[t] >= 0
      requires Targets(changed) <= order.Keys
      modifies this`cards
      ensures Settled(cards, notes, noteType, Moved(order, StagedTo(changed, order)))
      ensures SameRows(old(cards), cards)
      ensures forall id :: id in old(cards) && old(cards)[id].template !in order ==> cards[id] == old(cards)[id]
    {
      if |changed| > 0 {
        OffsetCardOrdinalsForTemplates(changed, noteType, order);
      } else {
        assert Moved(order, StagedTo(changed, order)) == order;
      }
    }

    method DeleteRemoved(noteType: int, removed: set<int>, ghost order: Order)
      requires Settled(cards, notes, noteType, order)
      modifies this`cards, this`templates
      ensures Settled(cards, notes, noteType, Without(order, removed))
      ensures cards == map id | id in old(cards) && old(cards)[id].template !in removed :: old(cards)[id]
      ensures templates == old(templates) - removed
    {
      DeletedSettled(cards, (map id | id in cards && cards[id].template !in removed :: cards[id]), notes, noteType, order, removed);
      if |removed| > 0 {
        DeleteCardsForTemplates(removed);
        DeleteTemplatesByIDs(removed);
      } else {
        assert removed == {};
      }
    }

    // Offset the moved templates' cards, then delete the removed templates with theirs.
    method Vacate(noteType: int, changed: seq<Change>, removed: set<int>, added: seq<Change>, ghost order: Order, ghost final: Order)
      requires Settled(cards, notes, noteType, order) && Asks(order, changed, removed, added, final)
      modifies this`cards, this`templates
      ensures Settled(cards, notes, noteType, Stage(order, changed, removed, added, 0))
      ensures Progress(old(cards), cards, notes, noteType, order, removed, added, 0)
      ensures cards.Keys <= old(cards).Keys && Kept(old(cards), cards) && templates == old(templates) - removed
    {
      hide *;
      ChangedKnown(order, changed, removed, added, final);
      OffsetMoved(noteType, changed, order);
      ghost var offset := cards;
      DeleteRemoved(noteType, removed, Moved(order, StagedTo(changed, order)));
      VacatedProgress(old(cards), offset, cards, notes, noteType, order, removed, added);
    }

    method AddCards(noteType: int, changed: seq<Change>, removed: set<int>, added: seq<Change>, ghost order: Order, ghost final: Order, ghost before: Cards)
      requires Settled(cards, notes, noteType, Stage(order, changed, removed, added, 0))
      requires Asks(order, changed, removed, added, final)
      requires Progress(before, cards, notes, noteType, order, removed, added, 0)
      requires Numbered(cards, nextCard) && Numbered(before, nextCard)
      requires forall j :: 0 <= j < |added| ==> Unused(cards, added[j].template)
      modifies this`cards, this`nextCard
      ensures Settled(cards, notes, noteType, Stage(order, changed, removed, added, |added|))
      ensures Progress(before, cards, notes, noteType, order, removed, added, |added|)
      ensures Numbered(cards, nextCard) && nextCard >= old(nextCard)
    {
      hide *;
      for k := 0 to |added|
        invariant Settled(cards, notes, noteType, Stage(order, changed, removed, added, k))
        invariant Progress(before, cards, notes, noteType, order, removed, added, k)
        invariant Numbered(cards, nextCard) && Numbered(before, nextCard) && nextCard >= old(nextCard)
        invariant forall j :: k <= j < |added| ==> Unused(cards, added[j].template)
      {
        AddOne(noteType, changed, removed, added, order, final, before, k);
      }
    }

    method AddOne(noteType: int, changed: seq<Change>, removed: set<int>, added: seq<Change>, ghost order: Order, ghost final: Order, ghost before: Cards, k: nat)
      requires k < |added| && Asks(order, changed, removed, added, final)
      requires Settled(cards, notes, noteType, Stage(order, changed, removed, added, k))
      requires Progress(before, cards, notes, noteType, order, removed, added, k)
      requires Numbered(cards, nextCard) && Numbered(before, nextCard)
      requires forall j :: k <= j < |added| ==> Unused(cards, added[j].template)
      modifies this`cards, this`nextCard
      ensures Settled(cards, notes, noteType, Stage(order, changed, removed, added, k + 1))
      ensures Progress(before, cards, notes, noteType, order, removed, added, k + 1)
      ensures Numbered(cards, nextCard) && Numbered(before, nextCard) && nextCard >= old(nextCard)
      ensures forall j :: k + 1 <= j < |added| ==> Unused(cards, added[j].template)
    {
      ghost var now := cards;
      ghost var staged := Stage(order, changed, removed, added, k);
      StageLeavesRoom(order, changed, removed, added, final, k);
      RoomForAll(cards, notes, noteType, staged, added[k].ordinal);
      var affected := CreateCardsForNewTemplate(added[k].template, added[k].ordinal, noteType);
      SettledAfterAdd(now, cards, notes, noteType, staged, added[k].template, added[k].ordinal);
      ProgressAdd(before, now, cards, notes, noteType, order, removed, added, k);
      StillUnused(now, cards, notes, noteType, added, k);
    }

    /** RemapNoteTypeCards: offset, delete, add, finalize. Surviving cards keep their row and follow
        their template to its new place, removed templates' cards are gone, each note has exactly one
        card for each added template, queued last in its home deck; and no row write ever met a
        taken (note, ordinal). */
    method RemapNoteTypeCards(noteType: int, changed: seq<Change>, removed: set<int>, added: seq<Change>, ghost order: Order, ghost final: Order)
      requires Settled(cards, notes, noteType, order) && Numbered(cards, nextCard)
      requires Asks(order, changed, removed, added, final)
      requires forall j :: 0 <= j < |added| ==> Unused(cards, added[j].template)
      modifies this`cards, this`templates, this`nextCard
      ensures Settled(cards, notes, noteType, final) && Numbered(cards, nextCard)
      ensures Progress(old(cards), cards, notes, noteType, order, removed, added, |added|)
      ensures templates == old(templates) - removed
    {
      hide *;
      ghost var before := cards;
      Vacate(noteType, changed, removed, added, order, final);
      FewerRows(before, cards, nextCard, added);
      AddCards(noteType, changed, removed, added, order, final, before);
      ghost var now, staged := cards, Stage(order, changed, removed, added, |added|);
      FinalStage(order, changed, removed, added, final);
      if |changed| > 0 {
        ChangedStaged(order, changed, removed, added, final);
        ChangedKnown(order, changed, removed, added, final);
        FinalizeCardOrdinalsForTemplates(changed, noteType, staged, final);
        ProgressKept(before, now, notes, noteType, order, removed, added);
        FinalKeepsOthers(before, now, changed, order, final);
        ProgressRenumber(before, now, cards, notes, noteType, order, removed, added, |added|);
      } else {
        NothingMoves(staged, final);
        assert changed == [];
      }
    }

    /** The template side of an edit: template rows take their submitted places, new templates get
        rows, and the cards follow. */
    method ApplyTemplatePlan(noteType: int, existing: seq<Slot>, submitted: seq<Entry>, plan: Plan)
      requires Lists(existing, OrderOf(templates, noteType))
      requires Acceptable(existing, submitted) && Splits(plan, existing, submitted)
      requires Settled(cards, notes, noteType, OrderOf(templates, noteType)) && Numbered(cards, nextCard)
      requires forall t :: t in templates ==> t < nextTemplate
      requires forall id :: id in cards ==> cards[id].template in templates
      modifies this`cards, this`templates, this`nextCard, this`nextTemplate
      ensures Submitted(OrderOf(templates, noteType), submitted, OrderOf(old(templates), noteType))
      ensures OthersKept(old(templates), templates, noteType)
      ensures Settled(cards, notes, noteType, OrderOf(templates, noteType)) && Numbered(cards, nextCard)
      ensures Reconciled(old(cards), cards, notes, noteType, OrderOf(old(templates), noteType), OrderOf(templates, noteType))
    {
      hide *;
      ghost var t0, next0, before := templates, nextTemplate, cards;
      ghost var order := OrderOf(t0, noteType);
      ghost var ids: seq<int> := [];
      var changed: seq<Change>, added: seq<Change> := [], [];
      NothingApplied(t0, next0, noteType, existing, submitted, plan);
      NothingListed(submitted, plan.keptOldOrdinal);
      for i := 0 to |submitted|
        invariant |ids| == i && next0 <= nextTemplate && |plan.keptOldOrdinal| == |submitted|
        invariant cards == before && Numbered(cards, nextCard)
        invariant Applied(t0, templates, next0, nextTemplate, noteType, submitted, plan.keptOldOrdinal, ids)
        invariant ListsMoved(changed, submitted, plan.keptOldOrdinal, ids) && ListsAdded(added, submitted, ids)
      {
        EntryOf(t0, noteType, existing, submitted, plan, i);
        ghost var id' := if submitted[i].Some? then submitted[i].value else nextTemplate;
        AppliedEntry(t0, templates, next0, nextTemplate, noteType, submitted, plan.keptOldOrdinal, ids, id');
        ListsMovedEntry(changed, submitted, plan.keptOldOrdinal, ids, id');
        ListsAddedEntry(added, submitted, ids, id');
        if plan.keptOldOrdinal[i] >= 0 {
          var id: int := submitted[i].value;
          templates := templates[id := Stored(noteType, i)];
          if plan.keptOldOrdinal[i] != i { changed := changed + [Change(id, i)]; }
        } else {
          var id := nextTemplate;
          templates := templates[id := Stored(noteType, i)];
          nextTemplate := nextTemplate + 1;
          added := added + [Change(id, i)];
        }
        ids := ids + [id'];
      }
      AppliedAllKeepsOthers(t0, templates, next0, nextTemplate, noteType, existing, submitted, plan, ids);
      PlanAsks(t0, templates, next0, nextTemplate, noteType, existing, submitted, plan, ids, changed, added);
      ghost var final := OrderOf(templates - SetOf(plan.removed), noteType);
      AddedUnused(cards, t0, noteType, next0, nextTemplate, templates, submitted, plan.keptOldOrdinal, ids, added);
      if |plan.removed| == 0 && |changed| == 0 && |added| == 0 {
        NothingAsked(templates, noteType, plan, order, changed, added, final);
        NothingToDo(cards, notes, noteType, order, added);
      } else {
        RemapNoteTypeCards(noteType, changed, SetOf(plan.removed), added, order, final);
      }
      ProgressReconciles(before, cards, notes, noteType, order, changed, SetOf(plan.removed), added, final);
    }
  }
}
