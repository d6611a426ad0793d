/** The derived-field pass of `syncCards` (src/lib/publicApi.ts): reprint
    pack lists, encounter-set sizes, bonded flags, upgrade flags and the
    suffixing of colliding ids, computed over `flatCards`. Each accumulation
    the source builds in one sweep (`dupes`, `encounter_card_counts`,
    `bondedNames`, the `groupBy` groups) is paired here with a declarative
    reference definition and a proof that the two agree. */
module Derived {
  import opened Wrappers
  import opened Seqs
  import opened Cards
  import opened Links

  // ---------------------------------------------------------------- reprints

  predicate DuplicateOf(c: Card, code: string)
  {
    Present(c.duplicate_of_code) && c.duplicate_of_code.value == code
  }

  /** Reference: the pack codes, in feed order, of the parsed cards that say
      they duplicate `code`. */
  function Reprints(parsed: seq<Card>, code: string): (r: seq<string>)
    ensures r == [] <==> forall c :: c in parsed ==> !DuplicateOf(c, code)
    decreases |parsed|
  {
    if parsed == [] then []
    else (if DuplicateOf(parsed[0], code) then [parsed[0].pack_code] else []) + Reprints(parsed[1..], code)
  }

  lemma {:induction false} ReprintsSnoc(parsed: seq<Card>, c: Card, code: string)
    ensures Reprints(parsed + [c], code) == Reprints(parsed, code) + (if DuplicateOf(c, code) then [c.pack_code] else [])
    decreases |parsed|
  {
    if parsed == [] {
      assert parsed + [c] == [c];
    } else {
      var head := if DuplicateOf(parsed[0], code) then [parsed[0].pack_code] else [];
      var tail := if DuplicateOf(c, code) then [c.pack_code] else [];
      assert (parsed + [c])[0] == parsed[0];
      assert (parsed + [c])[1..] == parsed[1..] + [c];
      ReprintsSnoc(parsed[1..], c, code);
      assert Reprints(parsed + [c], code) == head + (Reprints(parsed[1..], code) + tail);
      assert head + (Reprints(parsed[1..], code) + tail) == (head + Reprints(parsed[1..], code)) + tail;
    }
  }

  /** One step of `dupes`: a parsed card that names a duplicated code pushes
      its pack code onto that code's list, starting from the empty list. */
  function AddDupe(m: map<string, seq<string>>, c: Card): map<string, seq<string>>
  {
    if Present(c.duplicate_of_code) then
      var k := c.duplicate_of_code.value;
      m[k := (if k in m then m[k] else []) + [c.pack_code]]
    else m
  }

  lemma AddDupeStep(init: seq<Card>, c: Card, m: map<string, seq<string>>, code: string)
    requires code in m <==> Reprints(init, code) != []
    requires code in m ==> m[code] == Reprints(init, code)
    ensures code in AddDupe(m, c) <==> Reprints(init + [c], code) != []
    ensures code in AddDupe(m, c) ==> AddDupe(m, c)[code] == Reprints(init + [c], code)
  {
    ReprintsSnoc(init, c, code);
  }

  /** `dupes`: built card by card while the feed is parsed. */
  function DupesMap(parsed: seq<Card>): (m: map<string, seq<string>>)
    ensures forall code :: code in m <==> Reprints(parsed, code) != []
    ensures forall code :: code in m ==> m[code] == Reprints(parsed, code)
    decreases |parsed|
  {
    if parsed == [] then map[]
    else
      var init, c := parsed[..|parsed| - 1], parsed[|parsed| - 1];
      assert parsed == init + [c];
      var m := DupesMap(init);
      assert forall code :: (code in AddDupe(m, c) <==> Reprints(parsed, code) != [])
                            && (code in AddDupe(m, c) ==> AddDupe(m, c)[code] == Reprints(parsed, code)) by {
        forall code
          ensures code in AddDupe(m, c) <==> Reprints(parsed, code) != []
          ensures code in AddDupe(m, c) ==> AddDupe(m, c)[code] == Reprints(parsed, code)
        {
          AddDupeStep(init, c, m, code);
        }
      }
      AddDupe(m, c)
  }

  // ------------------------------------------------------- encounter sizes

  /** A card adds to the size of encounter set `code`: not hidden, and its
      `encounter_code` is `code`. */
  predicate InEncounter(c: Card, code: string)
  {
    !c.hidden && Present(c.encounter_code) && c.encounter_code.value == code
  }

  /** Reference: the sum of `quantity || 1` over the cards counted in `code`. */
  function EncounterTotal(flat: seq<Card>, code: string): (n: int)
    ensures (forall c :: c in flat ==> !InEncounter(c, code)) ==> n == 0
    decreases |flat|
  {
    if flat == [] then 0
    else (if InEncounter(flat[0], code) then QuantityOr1(flat[0]) else 0) + EncounterTotal(flat[1..], code)
  }

  lemma {:induction false} EncounterTotalSnoc(flat: seq<Card>, c: Card, code: string)
    ensures EncounterTotal(flat + [c], code) == EncounterTotal(flat, code) + (if InEncounter(c, code) then QuantityOr1(c) else 0)
    decreases |flat|
  {
    if flat == [] {
      assert flat + [c] == [c];
    } else {
      assert (flat + [c])[1..] == flat[1..] + [c];
      EncounterTotalSnoc(flat[1..], c, code);
    }
  }

  /** One step of `encounter_card_counts`: a counted card adds `quantity || 1`
      to its set's entry, starting from 0. */
  function AddEncounter(m: map<string, int>, c: Card): map<string, int>
  {
    if !c.hidden && Present(c.encounter_code) then
      var k := c.encounter_code.value;
      m[k := (if k in m then m[k] else 0) + QuantityOr1(c)]
    else m
  }

  lemma {:induction false} AddEncounterStep(init: seq<Card>, c: Card, m: map<string, int>, code: string)
    requires code in m <==> exists d :: d in init && InEncounter(d, code)
    requires code in m ==> m[code] == EncounterTotal(init, code)
    ensures code in AddEncounter(m, c) <==> exists d :: d in init + [c] && InEncounter(d, code)
    ensures code in AddEncounter(m, c) ==> AddEncounter(m, c)[code] == EncounterTotal(init + [c], code)
  {
    EncounterTotalSnoc(init, c, code);
    if exists d :: d in init && InEncounter(d, code) {
      var d :| d in init && InEncounter(d, code);
      assert d in init + [c];
    }
    if exists d :: d in init + [c] && InEncounter(d, code) {
      var d :| d in init + [c] && InEncounter(d, code);
      if d != c {
        assert d in init;
      }
    }
    if InEncounter(c, code) {
      assert c in init + [c];
    }
  }

  /** `encounter_card_counts`: accumulated card by card over `flatCards`. */
  function EncounterCounts(flat: seq<Card>): (m: map<string, int>)
    ensures forall code :: code in m <==> exists c :: c in flat && InEncounter(c, code)
    ensures forall code :: code in m ==> m[code] == EncounterTotal(flat, code)
    decreases |flat|
  {
    if flat == [] then map[]
    else
      var init, c := flat[..|flat| - 1], flat[|flat| - 1];
      assert flat == init + [c];
      var m := EncounterCounts(init);
      assert forall code :: (code in AddEncounter(m, c) <==> exists d :: d in flat && InEncounter(d, code))
                            && (code in AddEncounter(m, c) ==> AddEncounter(m, c)[code] == EncounterTotal(flat, code)) by {
        forall code
          ensures code in AddEncounter(m, c) <==> exists d :: d in flat && InEncounter(d, code)
          ensures code in AddEncounter(m, c) ==> AddEncounter(m, c)[code] == EncounterTotal(flat, code)
        {
          AddEncounterStep(init, c, m, code);
        }
      }
      AddEncounter(m, c)
  }

  // ---------------------------------------------------------------- bonded

  /** Some card of `flat` names `name` as its bonded card. */
  predicate BondedTo(flat: seq<Card>, name: string)
  {
    exists c :: c in flat && Present(c.bonded_name) && c.bonded_name.value == name
  }

  /** `bondedNames`: the truthy `bonded_name` values, in order. */
  function BondedNames(flat: seq<Card>): (names: seq<string>)
    ensures forall n :: n in names <==> BondedTo(flat, n)
    decreases |flat|
  {
    if flat == [] then []
    else
      assert forall n :: BondedTo(flat, n) <==>
        (Present(flat[0].bonded_name) && flat[0].bonded_name.value == n) || BondedTo(flat[1..], n) by {
        assert flat == [flat[0]] + flat[1..];
      }
      (if Present(flat[0].bonded_name) then [flat[0].bonded_name.value] else []) + BondedNames(flat[1..])
  }

  // -------------------------------------------------------------- upgrades

  /** A member of the `groupBy(playerCards, real_name)` group for `name`. */
  predicate InGroup(c: Card, name: string)
  {
    IsPlayerCard(c) && c.real_name == name
  }

  /** The `xp || 0` values of the group for `name`, in `flatCards` order. */
  function GroupXps(flat: seq<Card>, name: string): (xs: seq<int>)
    ensures forall c :: c in flat && InGroup(c, name) ==> XpOr0(c) in xs
    ensures forall x :: x in xs ==> exists c :: c in flat && InGroup(c, name) && XpOr0(c) == x
    decreases |flat|
  {
    if flat == [] then []
    else
      assert flat == [flat[0]] + flat[1..];
      (if InGroup(flat[0], name) then [XpOr0(flat[0])] else []) + GroupXps(flat[1..], name)
  }

  /** The members of the group for `name` at positions `lo` and later. */
  function GroupIndices(flat: seq<Card>, name: string, lo: nat): set<nat>
  {
    set k: nat | lo <= k < |flat| && InGroup(flat[k], name)
  }

  /** `cardsGroup.length`: the group's xp list has one entry per member. */
  lemma GroupXpsCountsMembers(flat: seq<Card>, name: string)
    ensures |GroupXps(flat, name)| == |set k: nat | k < |flat| && InGroup(flat[k], name)|
  {
    GroupXpsFrom(flat, name, 0);
    assert flat[0..] == flat;
    assert GroupIndices(flat, name, 0) == set k: nat | k < |flat| && InGroup(flat[k], name);
  }

  lemma {:induction false} GroupXpsFrom(flat: seq<Card>, name: string, lo: nat)
    requires lo <= |flat|
    ensures |GroupXps(flat[lo..], name)| == |GroupIndices(flat, name, lo)|
    decreases |flat| - lo
  {
    if lo == |flat| {
      assert flat[lo..] == [];
      assert GroupIndices(flat, name, lo) == {};
    } else {
      GroupXpsFrom(flat, name, lo + 1);
      assert flat[lo..][1..] == flat[lo + 1..];
      assert flat[lo..][0] == flat[lo];
      var rest := GroupIndices(flat, name, lo + 1);
      assert lo !in rest;
      if InGroup(flat[lo], name) {
        assert GroupIndices(flat, name, lo) == {lo} + rest;
      } else {
        assert GroupIndices(flat, name, lo) == rest;
      }
    }
  }

  /** The xp of `head(sortBy(group, card => -(card.xp || 0)))`: the largest. */
  function MaxXp(xs: seq<int>): (m: int)
    requires |xs| > 0
    ensures m in xs
    ensures forall x :: x in xs ==> x <= m
    decreases |xs|
  {
    if |xs| == 1 then xs[0]
    else
      var rest := MaxXp(xs[1..]);
      assert xs == [xs[0]] + xs[1..];
      if xs[0] >= rest then xs[0] else rest
  }

  /** `has_upgrades` after the upgrade pass, for a card of `flat`. */
  function UpgradeFlag(flat: seq<Card>, c: Card): (r: Option<bool>)
  {
    var xs := GroupXps(flat, c.real_name);
    if IsPlayerCard(c) && |xs| > 1 then Some(XpOr0(c) < MaxXp(xs)) else c.has_upgrades
  }

  /** In a group of two or more, a card is flagged false exactly when no
      member has more xp, and true otherwise; other cards keep their flag. */
  lemma UpgradeFlagMeaning(flat: seq<Card>, c: Card)
    requires c in flat
    ensures !IsPlayerCard(c) || |GroupXps(flat, c.real_name)| <= 1 ==> UpgradeFlag(flat, c) == c.has_upgrades
    ensures IsPlayerCard(c) && |GroupXps(flat, c.real_name)| > 1 ==>
              (UpgradeFlag(flat, c) == Some(false) <==>
                 forall d :: d in flat && InGroup(d, c.real_name) ==> XpOr0(d) <= XpOr0(c))
    ensures IsPlayerCard(c) && |GroupXps(flat, c.real_name)| > 1 ==> UpgradeFlag(flat, c).Some?
  {
    var xs := GroupXps(flat, c.real_name);
    if IsPlayerCard(c) && |xs| > 1 {
      var m := MaxXp(xs);
      var top :| top in flat && InGroup(top, c.real_name) && XpOr0(top) == m;
    }
  }

  /** Every group of two or more has a member that holds the maximum xp and
      is therefore flagged false. */
  lemma GroupHasTopCard(flat: seq<Card>, name: string)
    requires |GroupXps(flat, name)| > 1
    ensures exists d :: d in flat && InGroup(d, name) && UpgradeFlag(flat, d) == Some(false)
  {
    var m := MaxXp(GroupXps(flat, name));
    var top :| top in flat && InGroup(top, name) && XpOr0(top) == m;
    assert UpgradeFlag(flat, top) == Some(false);
  }

  /** Two printings of "X": xp 0 and xp 2. When both are deck-limited the
      xp 0 card has upgrades and the xp 2 card has none; when the xp 0 card
      has no deck limit it is not a player card, the group has one member and
      neither flag is set. */
  lemma UpgradeExample()
    ensures var base := Card("01001", "01001", "X", None, None, "core", None, false, None, None, Some(1),
                             false, Some(0), None, None, None, None, None);
            var upgraded := base.(code := "01001-t", id := "01001-t", xp := Some(2));
            && UpgradeFlag([base, upgraded], base) == Some(true)
            && UpgradeFlag([base, upgraded], upgraded) == Some(false)
            && UpgradeFlag([base.(deck_limit := None), upgraded], base.(deck_limit := None)) == None
            && UpgradeFlag([base.(deck_limit := None), upgraded], upgraded) == None
  {
    var base := Card("01001", "01001", "X", None, None, "core", None, false, None, None, Some(1),
                     false, Some(0), None, None, None, None, None);
    var upgraded := base.(code := "01001-t", id := "01001-t", xp := Some(2));
    assert [upgraded][1..] == [];
    assert GroupXps([upgraded], "X") == [2];
    assert [base, upgraded][1..] == [upgraded];
    assert GroupXps([base, upgraded], "X") == [0, 2];
    var plain := base.(deck_limit := None);
    assert [plain, upgraded][1..] == [upgraded];
    assert GroupXps([plain, upgraded], "X") == [2];
  }

  // ------------------------------------------------------------------- ids

  function Ids(flat: seq<Card>): (ids: seq<string>)
    ensures |ids| == |flat|
    ensures forall k :: 0 <= k < |flat| ==> ids[k] == flat[k].id
  {
    seq(|flat|, k requires 0 <= k < |flat| => flat[k].id)
  }

  /** The id after the collision pass: `${id}_${idx}` when the id is shared,
      where `idx` counts the earlier cards with the same id. */
  function SuffixedId(flat: seq<Card>, i: nat): (id: string)
    requires i < |flat|
  {
    var ids := Ids(flat);
    if Count(ids, flat[i].id) > 1 then flat[i].id + "_" + NatToString(Count(ids[..i], flat[i].id))
    else flat[i].id
  }

  /** An id that occurs once is kept; a shared one gets a suffix below the
      size of its group. */
  lemma SuffixedIdShape(flat: seq<Card>, i: nat)
    requires i < |flat|
    ensures Count(Ids(flat), flat[i].id) == 1 ==> SuffixedId(flat, i) == flat[i].id
    ensures Count(Ids(flat), flat[i].id) > 1 ==>
              exists n: nat :: n < Count(Ids(flat), flat[i].id) && SuffixedId(flat, i) == flat[i].id + "_" + NatToString(n)
  {
    var ids, id := Ids(flat), flat[i].id;
    assert ids == ids[..i] + ids[i..];
    CountAppend(ids[..i], ids[i..], id);
    assert ids[i..][0] == id;
    var n := Count(ids[..i], id);
    assert n < Count(ids, id);
    if Count(ids, id) > 1 {
      assert SuffixedId(flat, i) == id + "_" + NatToString(n);
    }
  }

  /** Two cards that shared an id end up with different ids. */
  lemma SuffixedIdsDistinct(flat: seq<Card>, i: nat, j: nat)
    requires i < j < |flat| && flat[i].id == flat[j].id
    ensures SuffixedId(flat, i) != SuffixedId(flat, j)
  {
    var ids, id := Ids(flat), flat[i].id;
    assert ids[..j] == ids[..i] + ids[i..j];
    CountAppend(ids[..i], ids[i..j], id);
    assert ids[i..j][0] == id;
    assert ids == ids[..j] + ids[j..];
    CountAppend(ids[..j], ids[j..], id);
    assert ids[j..][0] == id;
    if SuffixedId(flat, i) == SuffixedId(flat, j) {
      SuffixInjective(id + "_", Count(ids[..i], id), Count(ids[..j], id));
    }
  }

  // ---------------------------------------------------------- the whole pass

  /** `reprint_pack_codes` after the pass: the `dupes` entry for the card's
      code when there is one. */
  function ReprintField(parsed: seq<Card>, c: Card): (r: Option<seq<string>>)
    ensures r == if Reprints(parsed, c.code) != [] then Some(Reprints(parsed, c.code)) else c.reprint_pack_codes
  {
    var dupes := DupesMap(parsed);
    if c.code in dupes then Some(dupes[c.code]) else c.reprint_pack_codes
  }

  /** `encounter_size` after the pass: the counted total of the card's set,
      0 when nothing was counted for it. */
  function EncounterField(flat: seq<Card>, c: Card): (r: Option<int>)
    ensures r == if Present(c.encounter_code) then Some(EncounterTotal(flat, c.encounter_code.value)) else c.encounter_size
  {
    var counts := EncounterCounts(flat);
    if Present(c.encounter_code) then
      var k := c.encounter_code.value;
      Some(if k in counts then counts[k] else 0)
    else c.encounter_size
  }

  /** `bonded_from` after the pass: true when some card names this one as
      bonded, otherwise unchanged. */
  function BondedField(flat: seq<Card>, c: Card): (r: Option<bool>)
    ensures r == if BondedTo(flat, c.real_name) then Some(true) else c.bonded_from
  {
    if c.real_name in BondedNames(flat) then Some(true) else c.bonded_from
  }

  /** Card `i` of `flatCards` after every derivation step, with `parsed` the
      feed's cards from which `dupes` was built. */
  function DeriveAt(flat: seq<Card>, parsed: seq<Card>, i: nat): (r: Card)
    requires i < |flat|
    ensures Source(r) == Source(flat[i])
  {
    var c := flat[i];
    c.(reprint_pack_codes := ReprintField(parsed, c), has_upgrades := UpgradeFlag(flat, c),
       encounter_size := EncounterField(flat, c), bonded_from := BondedField(flat, c),
       id := SuffixedId(flat, i))
  }

  /** The derivation pass over `flatCards`, with `parsed` the feed's cards
      from which `dupes` was built. */
  function DeriveFlat(flat: seq<Card>, parsed: seq<Card>): (r: seq<Card>)
    ensures |r| == |flat|
    ensures forall k :: 0 <= k < |r| ==> Source(r[k]) == Source(flat[k])
    ensures forall k :: 0 <= k < |r| ==>
              r[k].reprint_pack_codes ==
                if Reprints(parsed, flat[k].code) != [] then Some(Reprints(parsed, flat[k].code))
                else flat[k].reprint_pack_codes
    ensures forall k :: 0 <= k < |r| ==>
              r[k].encounter_size ==
                if Present(flat[k].encounter_code) then Some(EncounterTotal(flat, flat[k].encounter_code.value))
                else flat[k].encounter_size
    ensures forall k :: 0 <= k < |r| ==>
              r[k].bonded_from == if BondedTo(flat, flat[k].real_name) then Some(true) else flat[k].bonded_from
    ensures forall k :: 0 <= k < |r| ==> r[k].has_upgrades == UpgradeFlag(flat, flat[k])
    ensures forall k :: 0 <= k < |r| ==> r[k].id == SuffixedId(flat, k)
  {
    seq(|flat|, k requires 0 <= k < |flat| => DeriveAt(flat, parsed, k))
  }

  /** All cards of one encounter set report the same size. */
  lemma EncounterSizesAgree(flat: seq<Card>, parsed: seq<Card>, i: nat, j: nat)
    requires i < |flat| && j < |flat|
    requires Present(flat[i].encounter_code) && flat[i].encounter_code == flat[j].encounter_code
    ensures DeriveFlat(flat, parsed)[i].encounter_size == DeriveFlat(flat, parsed)[j].encounter_size
  {
  }

  /** The bonded pass only ever sets `bonded_from` to true. */
  lemma BondedNeverCleared(flat: seq<Card>, parsed: seq<Card>, i: nat)
    requires i < |flat|
    ensures DeriveFlat(flat, parsed)[i].bonded_from == Some(false) ==> flat[i].bonded_from == Some(false)
    ensures flat[i].bonded_from == Some(true) ==> DeriveFlat(flat, parsed)[i].bonded_from == Some(true)
  {
  }
}
