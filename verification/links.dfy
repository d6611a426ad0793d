/** Link handling in `syncCards` (src/lib/publicApi.ts): which top-level cards
    survive de-duplication, the flat list of every card to store, and the
    three insert phases that put each back face before its front. */
module Links {
  import opened Wrappers
  import opened Cards

  /** The codes in the source's `linkedSet` that a string can match. The set
      also holds each front's `linked_card` object, but a code string never
      equals an object, so only the fronts' own codes are ever found. */
  function FrontCodes(cards: seq<Card>): set<string>
  {
    set c | c in cards && c.linked_card.Some? :: c.code
  }

  /** The filter of `dedupedCards`: a card with a link, or one whose code is
      not a front code. */
  predicate Kept(c: Card, fronts: set<string>)
  {
    c.linked_card.Some? || c.code !in fronts
  }

  function KeepCards(cards: seq<Card>, fronts: set<string>): (r: seq<Card>)
    ensures forall c :: multiset(r)[c] == if Kept(c, fronts) then multiset(cards)[c] else 0
    ensures |r| <= |cards|
    decreases |cards|
  {
    if cards == [] then []
    else
      assert cards == [cards[0]] + cards[1..];
      (if Kept(cards[0], fronts) then [cards[0]] else []) + KeepCards(cards[1..], fronts)
  }

  /** The filter keeps order: filtering a concatenation filters each part,
      one after the other. */
  lemma {:induction false} KeepCardsAppend(a: seq<Card>, b: seq<Card>, fronts: set<string>)
    ensures KeepCards(a + b, fronts) == KeepCards(a, fronts) + KeepCards(b, fronts)
    decreases |a|
  {
    if a == [] {
      assert a + b == b;
    } else {
      assert (a + b)[0] == a[0];
      assert (a + b)[1..] == a[1..] + b;
      KeepCardsAppend(a[1..], b, fronts);
      var head := if Kept(a[0], fronts) then [a[0]] else [];
      assert head + (KeepCards(a[1..], fronts) + KeepCards(b, fronts))
          == (head + KeepCards(a[1..], fronts)) + KeepCards(b, fronts);
    }
  }

  /** A single card is kept or dropped on its own. */
  lemma KeepCardsSingle(c: Card, fronts: set<string>)
    ensures KeepCards([c], fronts) == if Kept(c, fronts) then [c] else []
  {
    assert [c][1..] == [];
  }

  /** `dedupedCards`: the cards to store at top level, in feed order. */
  function Dedup(cards: seq<Card>): (r: seq<Card>)
    ensures forall c :: multiset(r)[c] == if Kept(c, FrontCodes(cards)) then multiset(cards)[c] else 0
  {
    KeepCards(cards, FrontCodes(cards))
  }

  /** A card without a link is dropped exactly when some card that has a
      link carries the same code. Cards with a link are always kept. */
  lemma DedupDropsExactly(cards: seq<Card>, c: Card)
    requires c in cards
    ensures c.linked_card.Some? ==> c in Dedup(cards)
    ensures c.linked_card.None? ==>
              (c !in Dedup(cards) <==> exists f :: f in cards && f.linked_card.Some? && f.code == c.code)
  {
    assert multiset(cards)[c] > 0;
    if c.linked_card.None? && c.code in FrontCodes(cards) {
      var f :| f in cards && f.linked_card.Some? && f.code == c.code;
    }
  }

  /** The consequence of matching codes only: a top-level copy of a back face
      whose code differs from every front code is kept, so it is stored both
      as a back face and as a normal card. */
  lemma BackFaceCopyKept(cards: seq<Card>, front: Card)
    requires front in cards && front.linked_card.Some?
    requires front.linked_card.value in cards
    requires front.linked_card.value.linked_card.None?
    requires front.linked_card.value.code !in FrontCodes(cards)
    ensures front.linked_card.value in Normals(Dedup(cards))
    ensures front.linked_card.value in Backs(Dedup(cards))
  {
    var back := front.linked_card.value;
    DedupDropsExactly(cards, back);
    DedupDropsExactly(cards, front);
    NormalsMembers(Dedup(cards), back);
    BacksMembers(Dedup(cards), front);
  }

  /** `flatCards`: each card followed by its `linked_card`, if any. */
  function FlatCards(cards: seq<Card>): (r: seq<Card>)
    ensures |r| == |cards| + |Backs(cards)|
    decreases |cards|
  {
    if cards == [] then []
    else (if cards[0].linked_card.Some? then [cards[0], cards[0].linked_card.value] else [cards[0]])
         + FlatCards(cards[1..])
  }

  /** Phase two: the fronts that carry a link (`linkedCards`). */
  function Fronts(cards: seq<Card>): (r: seq<Card>)
    ensures forall k :: 0 <= k < |r| ==> r[k] in cards && r[k].linked_card.Some?
    decreases |cards|
  {
    if cards == [] then []
    else (if cards[0].linked_card.Some? then [cards[0]] else []) + Fronts(cards[1..])
  }

  /** Phase three: the cards without a link (`normalCards`). */
  function Normals(cards: seq<Card>): (r: seq<Card>)
    ensures forall k :: 0 <= k < |r| ==> r[k] in cards && r[k].linked_card.None?
    decreases |cards|
  {
    if cards == [] then []
    else (if cards[0].linked_card.None? then [cards[0]] else []) + Normals(cards[1..])
  }

  /** Phase one: the back faces of the linked fronts. The k-th back face is
      the link of the k-th front of phase two. */
  function Backs(cards: seq<Card>): (r: seq<Card>)
    ensures |r| == |Fronts(cards)|
    ensures forall k :: 0 <= k < |r| ==> Fronts(cards)[k].linked_card == Some(r[k])
    decreases |cards|
  {
    if cards == [] then []
    else (if cards[0].linked_card.Some? then [cards[0].linked_card.value] else []) + Backs(cards[1..])
  }

  lemma {:induction false} NormalsMembers(cards: seq<Card>, c: Card)
    requires c in cards && c.linked_card.None?
    ensures c in Normals(cards)
    decreases |cards|
  {
    if cards[0] != c {
      NormalsMembers(cards[1..], c);
    }
  }

  lemma {:induction false} BacksMembers(cards: seq<Card>, c: Card)
    requires c in cards && c.linked_card.Some?
    ensures c.linked_card.value in Backs(cards)
    decreases |cards|
  {
    if cards[0] != c {
      BacksMembers(cards[1..], c);
    }
  }

  /** The three phases together insert exactly the cards of `flatCards`. */
  lemma {:induction false} PhasesCoverFlat(cards: seq<Card>)
    ensures multiset(Backs(cards) + Fronts(cards) + Normals(cards)) == multiset(FlatCards(cards))
    decreases |cards|
  {
    if cards != [] {
      PhasesCoverFlat(cards[1..]);
    }
  }

  /** Where a card of `cards` lands in `flatCards`: after all earlier cards
      and their back faces. */
  function FlatPos(cards: seq<Card>, i: nat): nat
    requires i <= |cards|
  {
    i + |Backs(cards[..i])|
  }

  /** `flatCards` lists each card at its position, its back face right after. */
  lemma {:induction false} FlatLayout(cards: seq<Card>, i: nat)
    requires i < |cards|
    ensures FlatPos(cards, i) < |FlatCards(cards)|
    ensures FlatCards(cards)[FlatPos(cards, i)] == cards[i]
    ensures cards[i].linked_card.Some? ==>
              FlatPos(cards, i) + 1 < |FlatCards(cards)|
              && FlatCards(cards)[FlatPos(cards, i) + 1] == cards[i].linked_card.value
    decreases i
  {
    if i > 0 {
      var tail := cards[1..];
      FlatLayout(tail, i - 1);
      assert cards[..i][1..] == tail[..i - 1];
      assert Backs(cards[..i]) == (if cards[0].linked_card.Some? then [cards[0].linked_card.value] else [])
                                  + Backs(tail[..i - 1]);
    }
  }

  /** The fronts of `cards` rebuilt so that each `linked_card` is the copy of
      its back face found in `derived`, a position-by-position rewrite of
      `FlatCards(cards)`. In the source the front and the back face in
      `flatCards` are the same objects, so the derivation pass updates both at
      once; this is that sharing made explicit. */
  function Relink(cards: seq<Card>, derived: seq<Card>): (r: seq<Card>)
    requires |derived| == |FlatCards(cards)|
    ensures |r| == |cards|
    ensures forall k :: 0 <= k < |r| ==> cards[k].linked_card.Some? ==> r[k].linked_card.Some?
    decreases |cards|
  {
    if cards == [] then []
    else if cards[0].linked_card.Some? then
      [derived[0].(linked_card := Some(derived[1]))] + Relink(cards[1..], derived[2..])
    else
      [derived[0]] + Relink(cards[1..], derived[1..])
  }

  /** Same links as the flat list: what a derivation pass that only writes
      derived fields keeps. */
  predicate SameLinks(flat: seq<Card>, derived: seq<Card>)
  {
    |flat| == |derived| && forall k :: 0 <= k < |flat| ==> derived[k].linked_card == flat[k].linked_card
  }

  /** Flattening the relinked cards yields the derived list again, up to the
      refreshed links; each front is followed by the derived back face. */
  lemma {:induction false} RelinkFlat(cards: seq<Card>, derived: seq<Card>)
    requires SameLinks(FlatCards(cards), derived)
    ensures |FlatCards(Relink(cards, derived))| == |derived|
    ensures forall k :: 0 <= k < |derived| ==> Detach(FlatCards(Relink(cards, derived))[k]) == Detach(derived[k])
    ensures |Fronts(Relink(cards, derived))| == |Fronts(cards)|
    decreases |cards|
  {
    if cards != [] {
      var flat := FlatCards(cards);
      var r := Relink(cards, derived);
      if cards[0].linked_card.Some? {
        assert flat[2..] == FlatCards(cards[1..]);
        assert SameLinks(FlatCards(cards[1..]), derived[2..]);
        RelinkFlat(cards[1..], derived[2..]);
        assert r[1..] == Relink(cards[1..], derived[2..]);
      } else {
        assert flat[1..] == FlatCards(cards[1..]);
        assert SameLinks(FlatCards(cards[1..]), derived[1..]);
        RelinkFlat(cards[1..], derived[1..]);
        assert r[1..] == Relink(cards[1..], derived[1..]);
        assert derived[0].linked_card == None;
      }
    }
  }
}
