/** `syncCards` (src/lib/publicApi.ts) as a pure transformation: from the
    caller's cache token and the feed's response to either the unchanged
    token or a full-replace plan (rules inserts, then cards in three phases).
    The store, its transaction and the count it reports afterwards are not
    part of this model. */
module CardSync {
  import opened Wrappers
  import opened Seqs
  import opened Chunks
  import opened ConditionalFetch
  import opened Cards
  import opened Links
  import opened Derived
  import opened Rules

  /** The records `Card.fromJson` accepted, in feed order; a record it
      rejected (None) is reported and skipped. */
  function Parsed(records: seq<Option<Card>>): (cards: seq<Card>)
    ensures |cards| <= |records|
    ensures forall c :: c in cards <==> Some(c) in records
    decreases |records|
  {
    if records == [] then []
    else
      assert records == [records[0]] + records[1..];
      (if records[0].Some? then [records[0].value] else []) + Parsed(records[1..])
  }

  /** Each accepted card occurs as often as its record does. */
  lemma {:induction false} ParsedCounts(records: seq<Option<Card>>)
    ensures forall c :: multiset(Parsed(records))[c] == multiset(records)[Some(c)]
    decreases |records|
  {
    if records != [] {
      ParsedCounts(records[1..]);
      ParsedHead(records);
      assert records == [records[0]] + records[1..];
    }
  }

  /** Parsing keeps feed order: the cards of a concatenation are the cards
      of each part, one after the other. */
  lemma {:induction false} ParsedAppend(a: seq<Option<Card>>, b: seq<Option<Card>>)
    ensures Parsed(a + b) == Parsed(a) + Parsed(b)
    decreases |a|
  {
    if a == [] {
      assert a + b == b;
    } else {
      assert (a + b)[0] == a[0];
      assert (a + b)[1..] == a[1..] + b;
      ParsedAppend(a[1..], b);
      ParsedHead(a);
      ParsedHead(a + b);
      var head := if a[0].Some? then [a[0].value] else [];
      assert head + (Parsed(a[1..]) + Parsed(b)) == (head + Parsed(a[1..])) + Parsed(b);
    }
  }

  lemma ParsedHead(records: seq<Option<Card>>)
    requires records != []
    ensures Parsed(records) == (if records[0].Some? then [records[0].value] else []) + Parsed(records[1..])
  {
  }

  /** `cardsToInsert`: the custom investigator first, then the feed's cards. */
  function ToInsert(records: seq<Option<Card>>, generic: Card): seq<Card>
  {
    [generic] + Parsed(records)
  }

  /** `dedupedCards` for a feed: the custom investigator first when it is
      kept, then the kept feed cards in feed order. */
  lemma DedupKeepsGenericFirst(records: seq<Option<Card>>, generic: Card)
    ensures var fronts := FrontCodes(ToInsert(records, generic));
            Dedup(ToInsert(records, generic))
              == (if Kept(generic, fronts) then [generic] else []) + KeepCards(Parsed(records), fronts)
  {
    var fronts := FrontCodes(ToInsert(records, generic));
    KeepCardsAppend([generic], Parsed(records), fronts);
    KeepCardsSingle(generic, fronts);
  }

  /** `flatCards` for a feed. */
  function FlatOf(records: seq<Option<Card>>, generic: Card): seq<Card>
  {
    FlatCards(Dedup(ToInsert(records, generic)))
  }

  /** `flatCards` after the derivation pass, `dupes` built from the feed. */
  function DerivedOf(records: seq<Option<Card>>, generic: Card): seq<Card>
  {
    DeriveFlat(FlatOf(records, generic), Parsed(records))
  }

  /** The card inserts of a full sync: `stored` is `dedupedCards` as the store
      sees them after the derivation pass, and the three phases are its back
      faces, its linked fronts and its other cards, each in batches. */
  datatype CardPlan = CardPlan(stored: seq<Card>, backs: seq<seq<Card>>, fronts: seq<seq<Card>>, normals: seq<seq<Card>>)

  /** The rows of a plan, in insertion order. */
  function Inserted(plan: CardPlan): seq<Card>
  {
    Flatten(plan.backs) + Flatten(plan.fronts) + Flatten(plan.normals)
  }

  /** `dedupedCards` as the store sees them: every card of the derived
      `flatCards` in place, each front holding its derived back face. */
  function Stored(records: seq<Option<Card>>, generic: Card): (stored: seq<Card>)
    ensures |stored| == |Dedup(ToInsert(records, generic))|
    ensures |FlatCards(stored)| == |DerivedOf(records, generic)|
    ensures forall k :: 0 <= k < |DerivedOf(records, generic)| ==>
              Detach(FlatCards(stored)[k]) == Detach(DerivedOf(records, generic)[k])
  {
    var deduped := Dedup(ToInsert(records, generic));
    var derived := DerivedOf(records, generic);
    assert SameLinks(FlatCards(deduped), derived) by {
      forall k | 0 <= k < |derived|
        ensures derived[k].linked_card == FlatCards(deduped)[k].linked_card
      {
        assert Source(derived[k]) == Source(FlatCards(deduped)[k]);
      }
    }
    RelinkFlat(deduped, derived);
    Relink(deduped, derived)
  }

  function PlanCards(records: seq<Option<Card>>, generic: Card, isIos: bool): (plan: CardPlan)
    ensures Flatten(plan.backs) == Backs(plan.stored)
    ensures Flatten(plan.fronts) == Fronts(plan.stored)
    ensures Flatten(plan.normals) == Normals(plan.stored)
    ensures multiset(Inserted(plan)) == multiset(FlatCards(plan.stored))
    ensures |Flatten(plan.backs)| == |Flatten(plan.fronts)|
    ensures forall k :: 0 <= k < |Flatten(plan.fronts)| ==>
              Flatten(plan.fronts)[k].linked_card == Some(Flatten(plan.backs)[k])
    ensures forall k :: 0 <= k < |plan.backs| ==> 0 < |plan.backs[k]| <= (if isIos then 50 else 8)
    ensures forall k :: 0 <= k < |plan.fronts| ==> 0 < |plan.fronts[k]| <= (if isIos then 50 else 8)
    ensures forall k :: 0 <= k < |plan.normals| ==> 0 < |plan.normals[k]| <= (if isIos then 50 else 8)
    ensures |plan.stored| == |Dedup(ToInsert(records, generic))|
    ensures |FlatCards(plan.stored)| == |DerivedOf(records, generic)|
    ensures forall k :: 0 <= k < |DerivedOf(records, generic)| ==>
              Detach(FlatCards(plan.stored)[k]) == Detach(DerivedOf(records, generic)[k])
  {
    var stored := Stored(records, generic);
    var backs, fronts, normals := Backs(stored), Fronts(stored), Normals(stored);
    PhasesCoverFlat(stored);
    var plan := CardPlan(stored, InsertChunk(backs, isIos, None), InsertChunk(fronts, isIos, None),
                         InsertChunk(normals, isIos, None));
    assert Inserted(plan) == backs + fronts + normals;
    plan
  }

  /** An inserted row is a row of the derived `flatCards`, up to its link. */
  lemma InsertedRow(records: seq<Option<Card>>, generic: Card, isIos: bool, x: Card) returns (k: nat)
    requires x in Inserted(PlanCards(records, generic, isIos))
    ensures k < |DerivedOf(records, generic)| == |FlatOf(records, generic)|
    ensures Detach(x) == Detach(DerivedOf(records, generic)[k])
  {
    var plan := PlanCards(records, generic, isIos);
    assert x in multiset(FlatCards(plan.stored));
    k :| 0 <= k < |FlatCards(plan.stored)| && FlatCards(plan.stored)[k] == x;
  }

  lemma InsertedEncounterSize(records: seq<Option<Card>>, generic: Card, isIos: bool, x: Card)
    requires x in Inserted(PlanCards(records, generic, isIos))
    requires Present(x.encounter_code)
    ensures x.encounter_size == Some(EncounterTotal(FlatOf(records, generic), x.encounter_code.value))
  {
    var k := InsertedRow(records, generic, isIos, x);
    var d, flat := DerivedOf(records, generic), FlatOf(records, generic);
    assert x.encounter_size == d[k].encounter_size;
    assert Source(d[k]) == Source(flat[k]);
  }

  /** Every inserted card that belongs to an encounter set carries that set's
      total size over the non-hidden cards of `flatCards`. */
  lemma InsertedEncounterSizes(records: seq<Option<Card>>, generic: Card, isIos: bool)
    ensures forall x :: x in Inserted(PlanCards(records, generic, isIos)) && Present(x.encounter_code) ==>
              x.encounter_size == Some(EncounterTotal(FlatOf(records, generic), x.encounter_code.value))
  {
    forall x | x in Inserted(PlanCards(records, generic, isIos)) && Present(x.encounter_code)
      ensures x.encounter_size == Some(EncounterTotal(FlatOf(records, generic), x.encounter_code.value))
    {
      InsertedEncounterSize(records, generic, isIos, x);
    }
  }

  lemma InsertedBondedFlag(records: seq<Option<Card>>, generic: Card, isIos: bool, x: Card)
    requires x in Inserted(PlanCards(records, generic, isIos))
    requires BondedTo(FlatOf(records, generic), x.real_name)
    ensures x.bonded_from == Some(true)
  {
    var k := InsertedRow(records, generic, isIos, x);
    var d, flat := DerivedOf(records, generic), FlatOf(records, generic);
    assert x.bonded_from == d[k].bonded_from;
    assert Source(d[k]) == Source(flat[k]);
  }

  /** Every inserted card whose name some card names as bonded is flagged. */
  lemma InsertedBondedFlags(records: seq<Option<Card>>, generic: Card, isIos: bool)
    ensures forall x :: x in Inserted(PlanCards(records, generic, isIos)) && BondedTo(FlatOf(records, generic), x.real_name) ==>
              x.bonded_from == Some(true)
  {
    forall x | x in Inserted(PlanCards(records, generic, isIos)) && BondedTo(FlatOf(records, generic), x.real_name)
      ensures x.bonded_from == Some(true)
    {
      InsertedBondedFlag(records, generic, isIos, x);
    }
  }

  /** The writes of a full card sync: the rules, then the cards. */
  datatype FullSync = FullSync(rules: RulesPlan, cards: CardPlan)

  /** `syncCards` once the response is in. `lang` selects the rules bundle
      and `load` parses it. `generic` is the custom investigator as
      `Card.fromJson` builds it, None when that throws. Either failure ends
      the sync with null. */
  function SyncCards(cache: Option<CacheToken>, response: Response<seq<Option<Card>>>, lang: Option<string>,
                     load: (Bundle, string) -> Option<seq<Rule>>, generic: Option<Card>, isIos: bool): (out: SyncOutcome<FullSync>)
    ensures response.NetworkError? ==> out.Failed?
    ensures response.Response? && NotModified(response.status, cache) ==> out == KeepCache(cache.value)
    ensures response.Response? && !NotModified(response.status, cache) ==>
              (out.Replace? <==> response.body.Some? && SyncRules(lang, load, isIos).Some? && generic.Some?)
    ensures out.Replace? ==>
              && response.Response? && response.body.Some?
              && SyncRules(lang, load, isIos).Some? && generic.Some?
              && out.plan == FullSync(SyncRules(lang, load, isIos).value, PlanCards(response.body.value, generic.value, isIos))
              && out.lastModified == StampOf(response.lastModified)
  {
    Conclude(cache, response,
             (records: seq<Option<Card>>) =>
               match (SyncRules(lang, load, isIos), generic)
               case (Some(rules), Some(g)) => Some(FullSync(rules, PlanCards(records, g, isIos)))
               case _ => None)
  }
}
