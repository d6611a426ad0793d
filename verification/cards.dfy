/** The card record of the sync pipeline, reduced to the fields the
    derivation and link logic of src/lib/publicApi.ts read or write, together
    with the JavaScript defaults the pipeline applies to them. */
module Cards {
  import opened Wrappers

  /** A parsed card. `linked_card` is the back face (or partner) embedded in
      its front. The last four fields are the derived outputs the sync
      computes; `taboo_set_id` is `null` (None), 0 for a taboo-affected base
      card, or the id of the taboo list a variant belongs to. */
  datatype Card = Card(
    code: string,
    id: string,
    real_name: string,
    linked_card: Option<Card>,
    duplicate_of_code: Option<string>,
    pack_code: string,
    encounter_code: Option<string>,
    hidden: bool,
    quantity: Option<int>,
    bonded_name: Option<string>,
    deck_limit: Option<int>,
    spoiler: bool,
    xp: Option<int>,
    taboo_set_id: Option<int>,
    has_upgrades: Option<bool>,
    encounter_size: Option<int>,
    bonded_from: Option<bool>,
    reprint_pack_codes: Option<seq<string>>)

  /** `card.quantity || 1`: an undefined or zero quantity counts as one. */
  function QuantityOr1(c: Card): int
  {
    if c.quantity.Some? && c.quantity.value != 0 then c.quantity.value else 1
  }

  /** `card.xp || 0`. */
  function XpOr0(c: Card): int
  {
    c.xp.GetOr(0)
  }

  /** A deck-building card: a positive deck limit, not a spoiler, and an
      `xp` that is neither undefined nor null. */
  predicate IsPlayerCard(c: Card)
  {
    c.deck_limit.Some? && c.deck_limit.value > 0 && !c.spoiler && c.xp.Some?
  }

  /** The card with its link cut, for comparing a card with the copy that
      carries a refreshed back face. */
  function Detach(c: Card): Card
  {
    c.(linked_card := None)
  }

  /** The card with the fields the derivation pass writes erased: the
      derivation never changes this part. */
  function Source(c: Card): Card
  {
    c.(id := "", has_upgrades := None, encounter_size := None, bonded_from := None,
       reprint_pack_codes := None)
  }
}
