/** The deck-edit reducer of src/reducers/deckEdits.ts: scratch edits of
    decks being edited, which decks are being edited, and per-deck card
    checklists, all keyed by deck id, updated by a pure transition function. */
module DeckEdits {
  import opened Wrappers

  /** Card code to count. */
  type Slots = map<string, int>

  /** `EditDeckState`: the pending changes of one deck. `slots` can be
      undefined because UPDATE_DECK copies the deck's slots without a
      default. */
  datatype EditDeckState = EditDeckState(
    nameChange: Option<string>,
    tabooSetChange: Option<int>,
    meta: map<string, string>,
    slots: Option<Slots>,
    ignoreDeckLimitSlots: Slots,
    xpAdjustment: int)

  /** The fields of a deck the reducer reads. */
  datatype Deck = Deck(
    id: int,
    meta: Option<map<string, string>>,
    slots: Option<Slots>,
    ignoreDeckLimitSlots: Option<Slots>,
    xp_adjustment: Option<int>)

  /** The payload of UPDATE_DECK_EDIT: undefined fields are left alone. */
  datatype EditUpdates = EditUpdates(
    nameChange: Option<string>,
    tabooSetChange: Option<int>,
    meta: Option<map<string, string>>,
    slots: Option<Slots>,
    ignoreDeckLimitSlots: Option<Slots>,
    xpAdjustment: Option<int>)

  datatype CountType = XpAdjustment | SlotCounts | IgnoreDeckLimitCounts

  datatype Operation = Inc | Dec | Set

  datatype Action =
    | StartDeckEdit(id: int, deck: Option<Deck>)
    | FinishDeckEdit(id: int)
    | UpdateDeckEdit(id: int, updates: EditUpdates)
    | UpdateDeckEditCounts(id: int, countType: CountType, operation: Operation, code: string, value: int,
                           limit: Option<int>)
    | ResetDeckChecklist(id: int)
    | SetDeckChecklistCard(id: int, card: string, checked: bool)
    | DeleteDeck(id: int)
    | UpdateDeck(id: int, deck: Option<Deck>)
    | ReplaceLocalDeck(localId: int, replacement: Deck)
    | OtherAction

  /** `DeckEditsState`. A deck is being edited when `editting` maps it to true. */
  datatype State = State(edits: map<int, EditDeckState>, editting: map<int, bool>, checklist: map<int, seq<string>>)

  /** `DEFAULT_DECK_EDITS_STATE`. */
  const Initial := State(map[], map[], map[])

  predicate Editing(s: State, id: int)
  {
    id in s.editting && s.editting[id]
  }

  /** The edits of a deck as START_DECK_EDIT and UPDATE_DECK set them up:
      no pending name or taboo change, missing maps empty, missing xp 0. */
  function FreshEdits(deck: Deck, slots: Option<Slots>): EditDeckState
  {
    EditDeckState(None, None, deck.meta.GetOr(map[]), slots, deck.ignoreDeckLimitSlots.GetOr(map[]),
                  deck.xp_adjustment.GetOr(0))
  }

  // --------------------------------------------------------------- editing

  function StartEdit(s: State, id: int, deck: Option<Deck>): (r: State)
    ensures Editing(r, id)
    ensures forall k :: k != id ==> (k in r.editting <==> k in s.editting)
    ensures forall k :: k != id && k in s.editting ==> r.editting[k] == s.editting[k]
    ensures deck.None? ==> r.edits == s.edits
    ensures deck.Some? ==> id in r.edits && r.edits[id].nameChange.None? && r.edits[id].tabooSetChange.None?
    ensures deck.Some? ==> r.edits[id].slots == Some(deck.value.slots.GetOr(map[]))
    ensures deck.Some? ==> r.edits[id].meta == deck.value.meta.GetOr(map[])
    ensures deck.Some? ==> r.edits[id].ignoreDeckLimitSlots == deck.value.ignoreDeckLimitSlots.GetOr(map[])
    ensures deck.Some? ==> r.edits[id].xpAdjustment == deck.value.xp_adjustment.GetOr(0)
    ensures forall k :: k != id ==> (k in r.edits <==> k in s.edits)
    ensures forall k :: k != id && k in s.edits ==> r.edits[k] == s.edits[k]
    ensures r.checklist == s.checklist
  {
    var edits := if deck.Some? then s.edits[id := FreshEdits(deck.value, Some(deck.value.slots.GetOr(map[])))]
                 else s.edits;
    s.(editting := s.editting[id := true], edits := edits)
  }

  function FinishEdit(s: State, id: int): (r: State)
    ensures id !in r.edits && id !in r.editting
    ensures forall k :: k != id ==> (k in r.edits <==> k in s.edits) && (k in r.editting <==> k in s.editting)
    ensures forall k :: k != id && k in s.edits ==> r.edits[k] == s.edits[k]
    ensures forall k :: k != id && k in s.editting ==> r.editting[k] == s.editting[k]
    ensures r.checklist == s.checklist
  {
    s.(editting := s.editting - {id}, edits := s.edits - {id})
  }

  /** Finishing an edit undoes starting it, whatever the deck. */
  lemma FinishUndoesStart(s: State, id: int, deck: Option<Deck>)
    requires id !in s.edits && id !in s.editting
    ensures FinishEdit(StartEdit(s, id, deck), id) == s
  {
    var r := FinishEdit(StartEdit(s, id, deck), id);
    assert r.edits == s.edits;
    assert r.editting == s.editting;
  }

  /** UPDATE_DECK_EDIT on existing edits: each defined field of `u` replaces
      the pending one. */
  function ApplyUpdates(e: EditDeckState, u: EditUpdates): (r: EditDeckState)
    ensures r.nameChange == if u.nameChange.Some? then u.nameChange else e.nameChange
    ensures r.tabooSetChange == if u.tabooSetChange.Some? then u.tabooSetChange else e.tabooSetChange
    ensures r.meta == u.meta.GetOr(e.meta)
    ensures r.slots == if u.slots.Some? then u.slots else e.slots
    ensures r.ignoreDeckLimitSlots == u.ignoreDeckLimitSlots.GetOr(e.ignoreDeckLimitSlots)
    ensures r.xpAdjustment == u.xpAdjustment.GetOr(e.xpAdjustment)
  {
    var e1 := if u.nameChange.Some? then e.(nameChange := u.nameChange) else e;
    var e2 := if u.tabooSetChange.Some? then e1.(tabooSetChange := u.tabooSetChange) else e1;
    var e3 := if u.meta.Some? then e2.(meta := u.meta.value) else e2;
    var e4 := if u.slots.Some? then e3.(slots := u.slots) else e3;
    var e5 := if u.ignoreDeckLimitSlots.Some? then e4.(ignoreDeckLimitSlots := u.ignoreDeckLimitSlots.value) else e4;
    if u.xpAdjustment.Some? then e5.(xpAdjustment := u.xpAdjustment.value) else e5
  }

  /** An update with every field undefined changes nothing. */
  lemma EmptyUpdateIsIdentity(e: EditDeckState)
    ensures ApplyUpdates(e, EditUpdates(None, None, None, None, None, None)) == e
  {
  }

  function UpdateEdit(s: State, id: int, u: EditUpdates): (r: State)
    ensures id !in s.edits ==> r == s
    ensures id in s.edits ==> r.edits == s.edits[id := ApplyUpdates(s.edits[id], u)]
    ensures r.editting == s.editting && r.checklist == s.checklist
  {
    if id !in s.edits then s
    else s.(edits := s.edits[id := ApplyUpdates(s.edits[id], u)])
  }

  // ----------------------------------------------------------------- counts

  /** The count of `code` in `slots`, 0 when absent (`slots[code] || 0`). */
  function CountOf(slots: Slots, code: string): int
  {
    if code in slots then slots[code] else 0
  }

  /** `limit || 2`. */
  function EffectiveLimit(limit: Option<int>): int
  {
    if limit.Some? && limit.value != 0 then limit.value else 2
  }

  /** The new count of one card after an operation on count `n`. */
  function NewCount(n: int, op: Operation, value: int, limit: Option<int>): (r: int)
    ensures op == Dec ==> r >= 0 && (n >= 1 ==> r == n - 1) && (n < 1 ==> r == 0)
    ensures op == Inc ==> r <= EffectiveLimit(limit) && (n + 1 <= EffectiveLimit(limit) ==> r == n + 1)
    ensures op == Inc && n + 1 > EffectiveLimit(limit) ==> r == EffectiveLimit(limit)
    ensures op == Set ==> r == value
  {
    match op
    case Set => value
    case Dec => if n - 1 > 0 then n - 1 else 0
    case Inc => if n + 1 < EffectiveLimit(limit) then n + 1 else EffectiveLimit(limit)
  }

  /** Removing a card right after adding one restores a count that had room. */
  lemma DecUndoesInc(n: int, value: int, limit: Option<int>)
    requires 0 <= n && n + 1 <= EffectiveLimit(limit)
    ensures NewCount(NewCount(n, Inc, value, limit), Dec, value, limit) == n
  {
  }

  /** Adding a card right after removing one restores a positive count
      within the limit. */
  lemma IncUndoesDec(n: int, value: int, limit: Option<int>)
    requires 1 <= n <= EffectiveLimit(limit)
    ensures NewCount(NewCount(n, Dec, value, limit), Inc, value, limit) == n
  {
  }

  /** The slot map after an operation on `code`: a zero count is deleted,
      every other code keeps its count. */
  function ApplyCount(slots: Slots, code: string, op: Operation, value: int, limit: Option<int>): (r: Slots)
    ensures code in r <==> NewCount(CountOf(slots, code), op, value, limit) != 0
    ensures code in r ==> r[code] == NewCount(CountOf(slots, code), op, value, limit)
    ensures forall k :: k != code ==> (k in r <==> k in slots)
    ensures forall k :: k != code && k in slots ==> r[k] == slots[k]
  {
    var n := NewCount(CountOf(slots, code), op, value, limit);
    if n == 0 then slots - {code} else slots[code := n]
  }

  /** Counts never drop below zero by removal and never rise above the
      effective limit by addition. */
  lemma CountBounds(slots: Slots, code: string, value: int, limit: Option<int>)
    ensures CountOf(ApplyCount(slots, code, Dec, value, limit), code) >= 0
    ensures CountOf(ApplyCount(slots, code, Inc, value, limit), code) <= EffectiveLimit(limit)
  {
  }

  /** `xpAdjustment` after an operation: one up, one down, or replaced; no
      clamping. */
  function NewXp(xp: int, op: Operation, value: int): (r: int)
    ensures op == Inc ==> r == xp + 1
    ensures op == Dec ==> r == xp - 1
    ensures op == Set ==> r == value
  {
    match op
    case Inc => xp + 1
    case Dec => xp - 1
    case Set => value
  }

  function ApplyCounts(e: EditDeckState, countType: CountType, op: Operation, code: string, value: int,
                       limit: Option<int>): (r: EditDeckState)
    ensures countType == XpAdjustment ==> r == e.(xpAdjustment := NewXp(e.xpAdjustment, op, value))
    ensures countType == SlotCounts ==>
              r == e.(slots := Some(ApplyCount(e.slots.GetOr(map[]), code, op, value, limit)))
    ensures countType == IgnoreDeckLimitCounts ==>
              r == e.(ignoreDeckLimitSlots := ApplyCount(e.ignoreDeckLimitSlots, code, op, value, limit))
  {
    match countType
    case XpAdjustment => e.(xpAdjustment := NewXp(e.xpAdjustment, op, value))
    case SlotCounts => e.(slots := Some(ApplyCount(e.slots.GetOr(map[]), code, op, value, limit)))
    case IgnoreDeckLimitCounts =>
      e.(ignoreDeckLimitSlots := ApplyCount(e.ignoreDeckLimitSlots, code, op, value, limit))
  }

  function UpdateCounts(s: State, id: int, countType: CountType, op: Operation, code: string, value: int,
                        limit: Option<int>): (r: State)
    ensures id !in s.edits ==> r == s
    ensures id in s.edits ==> r.edits == s.edits[id := ApplyCounts(s.edits[id], countType, op, code, value, limit)]
    ensures r.editting == s.editting && r.checklist == s.checklist
  {
    if id !in s.edits then s
    else s.(edits := s.edits[id := ApplyCounts(s.edits[id], countType, op, code, value, limit)])
  }

  // -------------------------------------------------------------- checklist

  /** `filter(list, card => card !== c)`. */
  function Without(list: seq<string>, c: string): (r: seq<string>)
    ensures c !in r
    ensures forall x :: x != c ==> multiset(r)[x] == multiset(list)[x]
    decreases |list|
  {
    if list == [] then []
    else
      assert list == [list[0]] + list[1..];
      (if list[0] == c then [] else [list[0]]) + Without(list[1..], c)
  }

  function ResetChecklist(s: State, id: int): (r: State)
    ensures id in r.checklist && r.checklist[id] == []
    ensures forall k :: k != id ==> (k in r.checklist <==> k in s.checklist)
    ensures forall k :: k != id && k in s.checklist ==> r.checklist[k] == s.checklist[k]
    ensures r.edits == s.edits && r.editting == s.editting
  {
    s.(checklist := s.checklist[id := []])
  }

  /** The current checklist of a deck, empty when there is none. */
  function ChecklistOf(s: State, id: int): seq<string>
  {
    if id in s.checklist then s.checklist[id] else []
  }

  function SetChecklistCard(s: State, id: int, card: string, checked: bool): (r: State)
    ensures id in r.checklist
    ensures checked ==> r.checklist[id] == ChecklistOf(s, id) + [card]
    ensures !checked ==> card !in r.checklist[id]
    ensures !checked ==> forall x :: x != card ==> multiset(r.checklist[id])[x] == multiset(ChecklistOf(s, id))[x]
    ensures forall k :: k != id ==> (k in r.checklist <==> k in s.checklist)
    ensures forall k :: k != id && k in s.checklist ==> r.checklist[k] == s.checklist[k]
    ensures r.edits == s.edits && r.editting == s.editting
  {
    var current := ChecklistOf(s, id);
    s.(checklist := s.checklist[id := if checked then current + [card] else Without(current, card)])
  }

  /** Checking a card and unchecking it leaves no copy of it, and every other
      card as often as before. */
  lemma UncheckUndoesCheck(s: State, id: int, card: string)
    ensures var r := SetChecklistCard(SetChecklistCard(s, id, card, true), id, card, false);
            && card !in r.checklist[id]
            && forall x :: x != card ==> multiset(r.checklist[id])[x] == multiset(ChecklistOf(s, id))[x]
  {
    var mid := SetChecklistCard(s, id, card, true);
    assert ChecklistOf(mid, id) == ChecklistOf(s, id) + [card];
  }

  function DeleteDeckChecklist(s: State, id: int): (r: State)
    ensures id !in r.checklist
    ensures forall k :: k != id ==> (k in r.checklist <==> k in s.checklist)
    ensures forall k :: k != id && k in s.checklist ==> r.checklist[k] == s.checklist[k]
    ensures r.edits == s.edits && r.editting == s.editting
  {
    if id in s.checklist then s.(checklist := s.checklist - {id}) else s
  }

  // ------------------------------------------------------------------ decks

  function UpdateDeckEdits(s: State, id: int, deck: Option<Deck>): (r: State)
    ensures deck.None? || !Editing(s, id) ==> r == s
    ensures deck.Some? && Editing(s, id) ==>
              && id in r.edits
              && r.edits[id].nameChange.None? && r.edits[id].tabooSetChange.None?
              && r.edits[id].slots == deck.value.slots
              && r.edits[id].meta == deck.value.meta.GetOr(map[])
              && r.edits[id].ignoreDeckLimitSlots == deck.value.ignoreDeckLimitSlots.GetOr(map[])
              && r.edits[id].xpAdjustment == deck.value.xp_adjustment.GetOr(0)
    ensures forall k :: k != id ==> (k in r.edits <==> k in s.edits)
    ensures forall k :: k != id && k in s.edits ==> r.edits[k] == s.edits[k]
    ensures r.editting == s.editting && r.checklist == s.checklist
  {
    if deck.None? then s
    else if Editing(s, id) then s.(edits := s.edits[id := FreshEdits(deck.value, deck.value.slots)])
    else s
  }

  function ReplaceLocal(s: State, localId: int, deck: Deck): (r: State)
    ensures localId !in s.checklist ==> r == s
    ensures localId in s.checklist && localId != deck.id ==>
              && localId !in r.checklist
              && deck.id in r.checklist && r.checklist[deck.id] == s.checklist[localId]
    ensures localId in s.checklist && localId == deck.id ==> localId !in r.checklist
    ensures forall k :: k != localId && k != deck.id ==> (k in r.checklist <==> k in s.checklist)
    ensures forall k :: k != localId && k != deck.id && k in s.checklist ==> r.checklist[k] == s.checklist[k]
    ensures r.edits == s.edits && r.editting == s.editting
  {
    if localId in s.checklist then
      s.(checklist := s.checklist[deck.id := s.checklist[localId]] - {localId})
    else s
  }

  // ---------------------------------------------------------------- reducer

  /** Actions that only touch checklists. */
  predicate ChecklistAction(a: Action)
  {
    a.ResetDeckChecklist? || a.SetDeckChecklistCard? || a.DeleteDeck? || a.ReplaceLocalDeck?
  }

  /** The reducer. */
  function Reduce(s: State, a: Action): (r: State)
    ensures a.OtherAction? ==> r == s
    ensures ChecklistAction(a) ==> r.edits == s.edits && r.editting == s.editting
    ensures !ChecklistAction(a) ==> r.checklist == s.checklist
    ensures !(a.StartDeckEdit? || a.FinishDeckEdit?) ==> r.editting == s.editting
  {
    match a
    case StartDeckEdit(id, deck) => StartEdit(s, id, deck)
    case FinishDeckEdit(id) => FinishEdit(s, id)
    case UpdateDeckEdit(id, updates) => UpdateEdit(s, id, updates)
    case UpdateDeckEditCounts(id, countType, op, code, value, limit) =>
      UpdateCounts(s, id, countType, op, code, value, limit)
    case ResetDeckChecklist(id) => ResetChecklist(s, id)
    case SetDeckChecklistCard(id, card, checked) => SetChecklistCard(s, id, card, checked)
    case DeleteDeck(id) => DeleteDeckChecklist(s, id)
    case UpdateDeck(id, deck) => UpdateDeckEdits(s, id, deck)
    case ReplaceLocalDeck(localId, deck) => ReplaceLocal(s, localId, deck)
    case OtherAction => s
  }

  /** Pending edits exist only for decks being edited. */
  predicate Consistent(s: State)
  {
    forall id :: id in s.edits ==> Editing(s, id)
  }

  /** Every action keeps edits confined to decks being edited. */
  lemma ReducePreservesConsistent(s: State, a: Action)
    requires Consistent(s)
    ensures Consistent(Reduce(s, a))
  {
  }

  /** Any sequence of actions from the initial state keeps the invariant. */
  function ReduceAll(s: State, actions: seq<Action>): (r: State)
    decreases |actions|
  {
    if actions == [] then s else ReduceAll(Reduce(s, actions[0]), actions[1..])
  }

  lemma {:induction false} ReduceAllPreservesConsistent(s: State, actions: seq<Action>)
    requires Consistent(s)
    ensures Consistent(ReduceAll(s, actions))
    decreases |actions|
  {
    if actions != [] {
      ReducePreservesConsistent(s, actions[0]);
      ReduceAllPreservesConsistent(Reduce(s, actions[0]), actions[1..]);
    }
  }
}
