/** `syncTaboos` (src/lib/publicApi.ts) as a pure transformation: the codes
    any taboo list affects, the base rows marked as taboo-affected, and for
    each taboo list one overlaid variant row per resolved base card. The
    store's lookups are the `lookup` map; `TabooSet.fromJson`,
    `Card.placeholderTabooCard` and `Card.fromTabooCardJson` are not part of
    this model and appear as the parameters `readDate`, `placeholder` and
    `overlay`, each None where the source's call throws. */
module Taboos {
  import opened Wrappers
  import opened Seqs
  import opened Chunks
  import opened ConditionalFetch
  import opened Cards

  /** One entry of a taboo list: the card's code and the changed fields. */
  datatype TabooCardJson = TabooCardJson(code: string, fields: map<string, string>)

  /** One taboo list of the feed, its embedded `cards` string already parsed. */
  datatype TabooJson = TabooJson(id: int, cards: seq<TabooCardJson>)

  /** A stored taboo list: its id, how many cards it lists, and the start date
      `TabooSet.fromJson` reads. */
  datatype TabooSet = TabooSet(id: int, cardCount: nat, startDate: string)

  // ------------------------------------------------------------ affected codes

  /** Every listed code of every taboo list, in feed order. */
  function ListedCodes(json: seq<TabooJson>): (codes: seq<string>)
    ensures forall code :: code in codes <==> exists t, c :: t in json && c in t.cards && c.code == code
    decreases |json|
  {
    if json == [] then []
    else
      var cards := json[0].cards;
      var here := seq(|cards|, k requires 0 <= k < |cards| => cards[k].code);
      assert json == [json[0]] + json[1..];
      assert forall code :: (exists c :: c in cards && c.code == code) <==> code in here by {
        forall code ensures (exists c :: c in cards && c.code == code) <==> code in here {
          if code in here {
            var k :| 0 <= k < |here| && here[k] == code;
            assert cards[k] in cards;
          }
          if exists c :: c in cards && c.code == code {
            var c :| c in cards && c.code == code;
            var k :| 0 <= k < |cards| && cards[k] == c;
            assert here[k] == code;
          }
        }
      }
      here + ListedCodes(json[1..])
  }

  /** `allTabooCards`: each code listed by some taboo list, once. */
  function AffectedCodes(json: seq<TabooJson>): (codes: seq<string>)
    ensures Distinct(codes)
    ensures forall code :: code in codes <==> exists t, c :: t in json && c in t.cards && c.code == code
  {
    var listed := ListedCodes(json);
    var r := Uniq(listed);
    assert forall code :: code in r <==> code in listed by {
      forall code ensures code in r <==> code in listed {
        if code in listed {
          var k :| 0 <= k < |listed| && listed[k] == code;
        }
      }
    }
    r
  }

  // ------------------------------------------------------------- base rows

  /** The store's rows after `syncTaboos` deletes the old variants (rows
      with a positive `taboo_set_id`) and marks the unmarked rows of every
      affected code as base taboo cards (`taboo_set_id` 0). */
  function PrepareBaseRows(table: seq<Card>, codes: seq<string>): (rows: seq<Card>)
    ensures |rows| <= |table|
    ensures forall r :: r in rows ==> !IsVariant(r)
    ensures forall c :: c in table && !IsVariant(c) ==> Marked(c, codes) in rows
    ensures forall r :: r in rows ==> r in table || (r.taboo_set_id == Some(0) && r.(taboo_set_id := None) in table)
    decreases |table|
  {
    if table == [] then []
    else
      var c := table[0];
      var rest := PrepareBaseRows(table[1..], codes);
      assert table == [c] + table[1..];
      if IsVariant(c) then rest else [Marked(c, codes)] + rest
  }

  /** A taboo variant row: a positive `taboo_set_id`. */
  predicate IsVariant(c: Card)
  {
    c.taboo_set_id.Some? && c.taboo_set_id.value > 0
  }

  /** The row after `set taboo_set_id = 0 where code in codes and taboo_set_id is null`. */
  function Marked(c: Card, codes: seq<string>): (r: Card)
    ensures c.taboo_set_id.None? && c.code in codes ==> r.taboo_set_id == Some(0)
    ensures c.taboo_set_id.Some? || c.code !in codes ==> r == c
    ensures r.(taboo_set_id := c.taboo_set_id) == c
  {
    if c.taboo_set_id.None? && c.code in codes then c.(taboo_set_id := Some(0)) else c
  }

  /** `baseTabooCards`: the base row found for each affected code, in order;
      codes without one contribute nothing. */
  function BaseCards(codes: seq<string>, lookup: map<string, Card>): (base: seq<Card>)
    ensures forall c :: c in base ==> exists code :: code in codes && code in lookup && lookup[code] == c
    ensures forall code :: code in codes && code in lookup ==> lookup[code] in base
    decreases |codes|
  {
    if codes == [] then []
    else
      assert codes == [codes[0]] + codes[1..];
      (if codes[0] in lookup then [lookup[codes[0]]] else []) + BaseCards(codes[1..], lookup)
  }

  /** With the lookup keyed by the code it was queried with, the base cards
      of distinct codes have distinct codes. */
  lemma {:induction false} BaseCardsDistinct(codes: seq<string>, lookup: map<string, Card>)
    requires Distinct(codes)
    requires forall code :: code in lookup ==> lookup[code].code == code
    ensures Distinct(CardCodes(BaseCards(codes, lookup)))
    ensures forall c :: c in BaseCards(codes, lookup) ==> c.code in codes
    decreases |codes|
  {
    if codes != [] {
      BaseCardsDistinct(codes[1..], lookup);
      var rest := BaseCards(codes[1..], lookup);
      if codes[0] in lookup {
        assert BaseCards(codes, lookup) == [lookup[codes[0]]] + rest;
        assert forall c :: c in rest ==> c.code != codes[0];
        assert CardCodes(BaseCards(codes, lookup)) == [codes[0]] + CardCodes(rest);
      }
    }
  }

  /** The codes of a list of cards. */
  function CardCodes(cards: seq<Card>): (codes: seq<string>)
    ensures |codes| == |cards|
    ensures forall k :: 0 <= k < |cards| ==> codes[k] == cards[k].code
  {
    seq(|cards|, k requires 0 <= k < |cards| => cards[k].code)
  }

  // -------------------------------------------------------------- overlays

  /** `Card.placeholderTabooCard` succeeds for every base card. */
  predicate AllPlaceholders(base: seq<Card>, id: int, placeholder: (int, Card) -> Option<Card>)
  {
    forall c :: c in base ==> placeholder(id, c).Some?
  }

  /** No later card of `base` shares the code of `base[i]`. */
  predicate LastOfCode(base: seq<Card>, i: int)
    requires 0 <= i < |base|
  {
    forall j :: i < j < |base| ==> base[j].code != base[i].code
  }

  /** `tabooCardsToSave` before the overlays: a placeholder variant per base
      card, keyed by its code (a later card with the same code wins); None
      when a placeholder throws. */
  function Placeholders(base: seq<Card>, id: int, placeholder: (int, Card) -> Option<Card>): (m: Option<map<string, Card>>)
    ensures m.None? <==> !AllPlaceholders(base, id, placeholder)
    ensures m.Some? ==> forall c :: c in base ==> c.code in m.value
    ensures m.Some? ==> forall k :: k in m.value ==> exists c :: c in base && c.code == k
    ensures m.Some? ==>
              forall i :: 0 <= i < |base| && LastOfCode(base, i) ==> Some(m.value[base[i].code]) == placeholder(id, base[i])
    decreases |base|
  {
    if base == [] then Some(map[])
    else
      var init, c := base[..|base| - 1], base[|base| - 1];
      assert base == init + [c];
      match Placeholders(init, id, placeholder)
      case None =>
        assert !AllPlaceholders(base, id, placeholder) by {
          var d :| d in init && placeholder(id, d).None?;
          assert d in base;
        }
        None
      case Some(m) =>
        match placeholder(id, c)
        case None => None
        case Some(p) =>
          PlaceholdersCover(base, id, placeholder, m, p, m[c.code := p]);
          PlaceholdersKeys(base, m, p, m[c.code := p]);
          assert forall i :: 0 <= i < |init| ==> init[i] in init;
          PlaceholdersLast(base, id, placeholder, m, p, m[c.code := p]);
          Some(m[c.code := p])
  }

  /** Step of `Placeholders`: with the last card's variant added, every base
      card has a variant and its code is a key. */
  lemma PlaceholdersCover(base: seq<Card>, id: int, placeholder: (int, Card) -> Option<Card>,
                          m: map<string, Card>, p: Card, m': map<string, Card>)
    requires base != []
    requires m' == m[base[|base| - 1].code := p]
    requires AllPlaceholders(base[..|base| - 1], id, placeholder)
    requires placeholder(id, base[|base| - 1]) == Some(p)
    requires forall c :: c in base[..|base| - 1] ==> c.code in m
    ensures AllPlaceholders(base, id, placeholder)
    ensures forall c :: c in base ==> c.code in m'
  {
    var init, last := base[..|base| - 1], base[|base| - 1];
    assert base == init + [last];
    forall c | c in base
      ensures placeholder(id, c).Some? && c.code in m'
    {
      if c != last {
        assert c in init;
      }
    }
  }

  /** Step of `Placeholders`: every key of the extended map is a base code. */
  lemma PlaceholdersKeys(base: seq<Card>, m: map<string, Card>, p: Card, m': map<string, Card>)
    requires base != []
    requires m' == m[base[|base| - 1].code := p]
    requires forall k :: k in m ==> exists c :: c in base[..|base| - 1] && c.code == k
    ensures forall k :: k in m' ==> exists c :: c in base && c.code == k
  {
    var init, last := base[..|base| - 1], base[|base| - 1];
    assert base == init + [last];
    forall k | k in m'
      ensures exists c :: c in base && c.code == k
    {
      if k == last.code {
        assert last in base;
      } else {
        var c :| c in init && c.code == k;
        assert c in base;
      }
    }
  }

  /** Step of `Placeholders`: the variant kept under a code is that of the
      last base card with the code. */
  lemma PlaceholdersLast(base: seq<Card>, id: int, placeholder: (int, Card) -> Option<Card>,
                         m: map<string, Card>, p: Card, m': map<string, Card>)
    requires base != []
    requires m' == m[base[|base| - 1].code := p]
    requires placeholder(id, base[|base| - 1]) == Some(p)
    requires forall i :: 0 <= i < |base| - 1 ==> base[i].code in m
    requires forall i :: 0 <= i < |base| - 1 && LastOfCode(base[..|base| - 1], i) ==>
               Some(m[base[i].code]) == placeholder(id, base[i])
    ensures forall i :: 0 <= i < |base| && LastOfCode(base, i) ==>
              base[i].code in m' && Some(m'[base[i].code]) == placeholder(id, base[i])
  {
    var init, last := base[..|base| - 1], base[|base| - 1];
    forall i | 0 <= i < |base| && LastOfCode(base, i)
      ensures base[i].code in m' && Some(m'[base[i].code]) == placeholder(id, base[i])
    {
      if i < |base| - 1 {
        assert last.code != base[i].code;
        assert LastOfCode(init, i) by {
          forall j | i < j < |init|
            ensures init[j].code != init[i].code
          {
            assert init[j] == base[j];
          }
        }
      }
    }
  }

  /** One listed entry applied to a variant: the overlaid card, or the card
      unchanged when `Card.fromTabooCardJson` fails. */
  function OverlayStep(id: int, entry: TabooCardJson, card: Card, overlay: (int, TabooCardJson, Card) -> Option<Card>): Card
  {
    overlay(id, entry, card).GetOr(card)
  }

  /** Reference: the variant for `code` after every entry of the list that
      names `code`, in list order. */
  function Overlaid(id: int, listed: seq<TabooCardJson>, code: string, card: Card,
                    overlay: (int, TabooCardJson, Card) -> Option<Card>): (r: Card)
    ensures (forall e :: e in listed ==> e.code != code) ==> r == card
    decreases |listed|
  {
    if listed == [] then card
    else Overlaid(id, listed[1..], code,
                  if listed[0].code == code then OverlayStep(id, listed[0], card, overlay) else card, overlay)
  }

  /** The loop over a taboo list's entries: overlay the entry's variant if
      there is one, skip the code otherwise. */
  function ApplyListed(m: map<string, Card>, id: int, listed: seq<TabooCardJson>,
                       overlay: (int, TabooCardJson, Card) -> Option<Card>): (r: map<string, Card>)
    ensures r.Keys == m.Keys
    ensures forall k :: k in m ==> r[k] == Overlaid(id, listed, k, m[k], overlay)
    decreases |listed|
  {
    if listed == [] then m
    else
      var e := listed[0];
      var next := if e.code in m then m[e.code := OverlayStep(id, e, m[e.code], overlay)] else m;
      ApplyListed(next, id, listed[1..], overlay)
  }

  /** The rows `syncTaboos` inserts for one list, with the list itself. */
  datatype TabooInsert = TabooInsert(tabooSet: TabooSet, rows: seq<Card>, batches: seq<seq<Card>>)

  /** One iteration of the loop over taboo lists; None when
      `TabooSet.fromJson` fails, in which case nothing is written for it.
      When a placeholder throws, the list is stored without variant rows. */
  function PlanTabooSet(t: TabooJson, base: seq<Card>, readDate: TabooJson -> Option<string>,
                        placeholder: (int, Card) -> Option<Card>, overlay: (int, TabooCardJson, Card) -> Option<Card>,
                        isIos: bool): (r: Option<TabooInsert>)
    ensures r.None? <==> readDate(t).None?
    ensures r.Some? ==> r.value.tabooSet == TabooSet(t.id, |t.cards|, readDate(t).value)
    ensures r.Some? ==>
              |r.value.rows| == if AllPlaceholders(base, t.id, placeholder) then |Uniq(CardCodes(base))| else 0
    ensures r.Some? && !AllPlaceholders(base, t.id, placeholder) ==> r.value.batches == []
    ensures r.Some? ==> Flatten(r.value.batches) == r.value.rows
    ensures r.Some? ==> forall k :: 0 <= k < |r.value.batches| ==> 0 < |r.value.batches[k]| <= (if isIos then 50 else 4)
  {
    if readDate(t).None? then None
    else
      var tabooSet := TabooSet(t.id, |t.cards|, readDate(t).value);
      match Placeholders(base, t.id, placeholder)
      case None => Some(TabooInsert(tabooSet, [], []))
      case Some(m) =>
        var rows := VariantRows(base, ApplyListed(m, t.id, t.cards, overlay));
        Some(TabooInsert(tabooSet, rows, InsertChunk(rows, isIos, Some(4))))
  }

  /** `values(tabooCardsToSave)`: the saved variant of each base code, once,
      in the order the codes were first assigned. */
  function VariantRows(base: seq<Card>, saved: map<string, Card>): (rows: seq<Card>)
    requires forall c :: c in base ==> c.code in saved
    ensures |rows| == |Uniq(CardCodes(base))|
    ensures forall i :: 0 <= i < |rows| ==> rows[i] == saved[Uniq(CardCodes(base))[i]]
  {
    var keys := Uniq(CardCodes(base));
    assert forall k :: k in keys ==> k in saved by {
      forall k | k in keys ensures k in saved {
        var i :| 0 <= i < |CardCodes(base)| && CardCodes(base)[i] == k;
        assert base[i] in base;
      }
    }
    seq(|keys|, i requires 0 <= i < |keys| => saved[keys[i]])
  }

  lemma {:induction false} UniqOfDistinct<T>(xs: seq<T>)
    requires Distinct(xs)
    ensures Uniq(xs) == xs
    decreases |xs|
  {
    if xs != [] {
      var init := xs[..|xs| - 1];
      assert Distinct(init);
      UniqOfDistinct(init);
      assert xs[|xs| - 1] !in init;
      assert xs == init + [xs[|xs| - 1]];
    }
  }

  /** With distinct base codes and every placeholder built, the k-th row is
      the k-th base card's placeholder with every entry for its code
      overlaid in list order; a listed code without a base card yields no
      row. */
  lemma TabooRowsPerBaseCard(t: TabooJson, base: seq<Card>, readDate: TabooJson -> Option<string>,
                             placeholder: (int, Card) -> Option<Card>, overlay: (int, TabooCardJson, Card) -> Option<Card>,
                             isIos: bool)
    requires readDate(t).Some?
    requires Distinct(CardCodes(base))
    requires AllPlaceholders(base, t.id, placeholder)
    ensures PlanTabooSet(t, base, readDate, placeholder, overlay, isIos).Some?
    ensures |PlanTabooSet(t, base, readDate, placeholder, overlay, isIos).value.rows| == |base|
    ensures forall k :: 0 <= k < |base| ==>
              PlanTabooSet(t, base, readDate, placeholder, overlay, isIos).value.rows[k]
                == Overlaid(t.id, t.cards, base[k].code, placeholder(t.id, base[k]).value, overlay)
  {
    UniqOfDistinct(CardCodes(base));
    var m := Placeholders(base, t.id, placeholder).value;
    forall k | 0 <= k < |base|
      ensures m[base[k].code] == placeholder(t.id, base[k]).value
    {
      assert forall j :: k < j < |base| ==> CardCodes(base)[j] != CardCodes(base)[k];
    }
  }

  // ---------------------------------------------------------------- the sync

  /** The writes of a taboo sync: the base-row marking, the lists and their
      variant rows. */
  datatype TabooPlan = TabooPlan(affected: seq<string>, base: seq<Card>, sets: seq<TabooSet>, inserts: seq<TabooInsert>)

  /** The lists `TabooSet.fromJson` accepts, each recording its id and the
      number of cards it lists, in feed order. */
  function ListedSets(json: seq<TabooJson>, readDate: TabooJson -> Option<string>): (sets: seq<TabooSet>)
    ensures |sets| <= |json|
    ensures forall t :: t in json && readDate(t).Some? ==> TabooSet(t.id, |t.cards|, readDate(t).value) in sets
    decreases |json|
  {
    if json == [] then []
    else
      assert forall t :: t in json ==> t == json[0] || t in json[1..];
      (if readDate(json[0]).Some? then [TabooSet(json[0].id, |json[0].cards|, readDate(json[0]).value)] else [])
        + ListedSets(json[1..], readDate)
  }

  /** The loop keeps feed order: the lists of a concatenation are those of
      each part, one after the other. */
  lemma {:induction false} ListedSetsAppend(a: seq<TabooJson>, b: seq<TabooJson>, readDate: TabooJson -> Option<string>)
    ensures ListedSets(a + b, readDate) == ListedSets(a, readDate) + ListedSets(b, readDate)
    decreases |a|
  {
    if a == [] {
      assert a + b == b;
    } else {
      assert (a + b)[0] == a[0];
      assert (a + b)[1..] == a[1..] + b;
      ListedSetsAppend(a[1..], b, readDate);
      var head := if readDate(a[0]).Some? then [TabooSet(a[0].id, |a[0].cards|, readDate(a[0]).value)] else [];
      assert head + (ListedSets(a[1..], readDate) + ListedSets(b, readDate))
          == (head + ListedSets(a[1..], readDate)) + ListedSets(b, readDate);
    }
  }

  /** A single list is stored exactly when `TabooSet.fromJson` accepts it. */
  lemma ListedSetsSingle(t: TabooJson, readDate: TabooJson -> Option<string>)
    ensures ListedSets([t], readDate) == if readDate(t).Some? then [TabooSet(t.id, |t.cards|, readDate(t).value)] else []
  {
    assert [t][1..] == [];
  }

  /** Each stored list records the id of a list of the feed and the number
      of cards that list names. */
  lemma {:induction false} ListedSetsRecordCounts(json: seq<TabooJson>, readDate: TabooJson -> Option<string>, s: TabooSet)
    requires s in ListedSets(json, readDate)
    ensures exists t :: t in json && readDate(t).Some? && s == TabooSet(t.id, |t.cards|, readDate(t).value)
    decreases |json|
  {
    var t := json[0];
    if !(readDate(t).Some? && s == TabooSet(t.id, |t.cards|, readDate(t).value)) {
      ListedSetsRecordCounts(json[1..], readDate, s);
      var u :| u in json[1..] && readDate(u).Some? && s == TabooSet(u.id, |u.cards|, readDate(u).value);
      assert u in json;
    }
  }

  /** `y` is what `f` gives for some element of `xs`. */
  ghost predicate Picked<A, B>(xs: seq<A>, f: A -> Option<B>, y: B)
  {
    exists x :: x in xs && f(x) == Some(y)
  }

  /** `PlanTabooSet` for a fixed base and fixed parsers, as a function of the list. */
  function PlanOf(base: seq<Card>, readDate: TabooJson -> Option<string>, placeholder: (int, Card) -> Option<Card>,
                  overlay: (int, TabooCardJson, Card) -> Option<Card>, isIos: bool): TabooJson -> Option<TabooInsert>
  {
    t => PlanTabooSet(t, base, readDate, placeholder, overlay, isIos)
  }

  /** `insert` was planned for some list of the feed. */
  ghost predicate PlannedFrom(json: seq<TabooJson>, base: seq<Card>, readDate: TabooJson -> Option<string>,
                              placeholder: (int, Card) -> Option<Card>, overlay: (int, TabooCardJson, Card) -> Option<Card>,
                              isIos: bool, insert: TabooInsert)
  {
    Picked(json, PlanOf(base, readDate, placeholder, overlay, isIos), insert)
  }

  /** The loop over taboo lists: one insert per list `TabooSet.fromJson`
      accepts, in feed order, each that list's own plan. */
  function PlanInserts(json: seq<TabooJson>, base: seq<Card>, readDate: TabooJson -> Option<string>,
                       placeholder: (int, Card) -> Option<Card>, overlay: (int, TabooCardJson, Card) -> Option<Card>,
                       isIos: bool): (r: seq<TabooInsert>)
    ensures SetsOf(r) == ListedSets(json, readDate)
    ensures forall k :: 0 <= k < |r| ==> PlannedFrom(json, base, readDate, placeholder, overlay, isIos, r[k])
    ensures forall k :: 0 <= k < |r| ==>
              |r[k].rows| == if AllPlaceholders(base, r[k].tabooSet.id, placeholder) then |Uniq(CardCodes(base))| else 0
    decreases |json|
  {
    if json == [] then []
    else
      var here := PlanTabooSet(json[0], base, readDate, placeholder, overlay, isIos);
      var rest := PlanInserts(json[1..], base, readDate, placeholder, overlay, isIos);
      var r := (if here.Some? then [here.value] else []) + rest;
      SetsCons(json, readDate, here, rest, r);
      PlannedCons(json, base, readDate, placeholder, overlay, isIos, here, rest, r);
      PlannedRowCounts(json, base, readDate, placeholder, overlay, isIos, r);
      r
  }

  /** Step of `PlanInserts`: the head's list, when accepted, goes first. */
  lemma SetsCons(json: seq<TabooJson>, readDate: TabooJson -> Option<string>,
                 here: Option<TabooInsert>, rest: seq<TabooInsert>, r: seq<TabooInsert>)
    requires json != []
    requires here.None? <==> readDate(json[0]).None?
    requires here.Some? ==> here.value.tabooSet == TabooSet(json[0].id, |json[0].cards|, readDate(json[0]).value)
    requires SetsOf(rest) == ListedSets(json[1..], readDate)
    requires r == (if here.Some? then [here.value] else []) + rest
    ensures SetsOf(r) == ListedSets(json, readDate)
  {
    if here.Some? {
      assert r[0] == here.value && r[1..] == rest;
      assert SetsOf(r) == [here.value.tabooSet] + SetsOf(rest);
    } else {
      assert r == rest;
    }
  }

  /** Step of `PlanInserts`: the inserts planned for the tail stay planned
      from the whole feed, and the head's own plan joins them. */
  lemma PlannedCons(json: seq<TabooJson>, base: seq<Card>, readDate: TabooJson -> Option<string>,
                    placeholder: (int, Card) -> Option<Card>, overlay: (int, TabooCardJson, Card) -> Option<Card>,
                    isIos: bool, here: Option<TabooInsert>, rest: seq<TabooInsert>, r: seq<TabooInsert>)
    requires json != []
    requires here == PlanTabooSet(json[0], base, readDate, placeholder, overlay, isIos)
    requires forall k :: 0 <= k < |rest| ==> PlannedFrom(json[1..], base, readDate, placeholder, overlay, isIos, rest[k])
    requires r == (if here.Some? then [here.value] else []) + rest
    ensures forall k :: 0 <= k < |r| ==> PlannedFrom(json, base, readDate, placeholder, overlay, isIos, r[k])
  {
    PickedCons(json, PlanOf(base, readDate, placeholder, overlay, isIos), rest, r);
  }

  /** Each kept result of `f` over a sequence comes from one of its
      elements, whether the head's result is kept or not. */
  lemma PickedCons<A, B>(xs: seq<A>, f: A -> Option<B>, rest: seq<B>, r: seq<B>)
    requires xs != []
    requires forall k :: 0 <= k < |rest| ==> Picked(xs[1..], f, rest[k])
    requires r == (if f(xs[0]).Some? then [f(xs[0]).value] else []) + rest
    ensures forall k :: 0 <= k < |r| ==> Picked(xs, f, r[k])
  {
    forall k | 0 <= k < |r|
      ensures Picked(xs, f, r[k])
    {
      if f(xs[0]).Some? && k == 0 {
        assert xs[0] in xs;
      } else {
        var j := if f(xs[0]).Some? then k - 1 else k;
        assert r[k] == rest[j];
        assert Picked(xs[1..], f, rest[j]);
        var x :| x in xs[1..] && f(x) == Some(rest[j]);
        assert x in xs;
      }
    }
  }

  /** A planned insert has the row count of its list's plan. */
  lemma PlannedRowCounts(json: seq<TabooJson>, base: seq<Card>, readDate: TabooJson -> Option<string>,
                         placeholder: (int, Card) -> Option<Card>, overlay: (int, TabooCardJson, Card) -> Option<Card>,
                         isIos: bool, r: seq<TabooInsert>)
    requires forall k :: 0 <= k < |r| ==> PlannedFrom(json, base, readDate, placeholder, overlay, isIos, r[k])
    ensures forall k :: 0 <= k < |r| ==>
              |r[k].rows| == if AllPlaceholders(base, r[k].tabooSet.id, placeholder) then |Uniq(CardCodes(base))| else 0
  {
    forall k | 0 <= k < |r|
      ensures |r[k].rows| == if AllPlaceholders(base, r[k].tabooSet.id, placeholder) then |Uniq(CardCodes(base))| else 0
    {
      assert Picked(json, PlanOf(base, readDate, placeholder, overlay, isIos), r[k]);
      var t :| t in json && PlanOf(base, readDate, placeholder, overlay, isIos)(t) == Some(r[k]);
      assert PlanTabooSet(t, base, readDate, placeholder, overlay, isIos) == Some(r[k]);
    }
  }

  /** The lists of a run of inserts. */
  function SetsOf(inserts: seq<TabooInsert>): (sets: seq<TabooSet>)
    ensures |sets| == |inserts|
    decreases |inserts|
  {
    if inserts == [] then [] else [inserts[0].tabooSet] + SetsOf(inserts[1..])
  }

  /** The full-replace plan for a taboo feed, given the store's base row for
      each code it is asked about. */
  function PlanTaboos(json: seq<TabooJson>, lookup: map<string, Card>, readDate: TabooJson -> Option<string>,
                      placeholder: (int, Card) -> Option<Card>, overlay: (int, TabooCardJson, Card) -> Option<Card>,
                      isIos: bool): (plan: TabooPlan)
    ensures Distinct(plan.affected)
    ensures forall code :: code in plan.affected <==> exists t, c :: t in json && c in t.cards && c.code == code
    ensures forall code :: code in plan.affected && code in lookup ==> lookup[code] in plan.base
    ensures plan.base == BaseCards(plan.affected, lookup)
    ensures plan.inserts == PlanInserts(json, plan.base, readDate, placeholder, overlay, isIos)
    ensures plan.sets == SetsOf(plan.inserts) == ListedSets(json, readDate)
    ensures forall k :: 0 <= k < |plan.inserts| ==>
              |plan.inserts[k].rows| ==
                if AllPlaceholders(plan.base, plan.inserts[k].tabooSet.id, placeholder) then |Uniq(CardCodes(plan.base))| else 0
  {
    var affected := AffectedCodes(json);
    var base := BaseCards(affected, lookup);
    var inserts := PlanInserts(json, base, readDate, placeholder, overlay, isIos);
    TabooPlan(affected, base, SetsOf(inserts), inserts)
  }

  /** When the store answers each code with a row of that code, every taboo
      list gets exactly one variant row per resolved base card, or none at
      all when a placeholder for it throws. */
  lemma TabooRowsPerResolvedCard(json: seq<TabooJson>, lookup: map<string, Card>, readDate: TabooJson -> Option<string>,
                                 placeholder: (int, Card) -> Option<Card>, overlay: (int, TabooCardJson, Card) -> Option<Card>,
                                 isIos: bool, k: nat)
    requires forall code :: code in lookup ==> lookup[code].code == code
    requires k < |PlanTaboos(json, lookup, readDate, placeholder, overlay, isIos).inserts|
    ensures var plan := PlanTaboos(json, lookup, readDate, placeholder, overlay, isIos);
            && |plan.inserts[k].rows| ==
                 (if AllPlaceholders(plan.base, plan.inserts[k].tabooSet.id, placeholder) then |plan.base| else 0)
            && forall c :: c in plan.base ==> c.code in plan.affected
  {
    var plan := PlanTaboos(json, lookup, readDate, placeholder, overlay, isIos);
    BaseCardsDistinct(plan.affected, lookup);
    UniqOfDistinct(CardCodes(plan.base));
  }

  /** When the store answers each code with a row of that code, the k-th
      insert is the plan of a list `t` of the feed: it stores `t` and, when
      every placeholder builds, its i-th row is the i-th base card's
      placeholder overlaid by every entry of `t` for that code; otherwise it
      has no rows and no batches. */
  lemma TabooVariantsPerResolvedCard(json: seq<TabooJson>, lookup: map<string, Card>, readDate: TabooJson -> Option<string>,
                                     placeholder: (int, Card) -> Option<Card>, overlay: (int, TabooCardJson, Card) -> Option<Card>,
                                     isIos: bool, k: nat) returns (t: TabooJson)
    requires forall code :: code in lookup ==> lookup[code].code == code
    requires k < |PlanTaboos(json, lookup, readDate, placeholder, overlay, isIos).inserts|
    ensures t in json && readDate(t).Some?
    ensures var ins := PlanTaboos(json, lookup, readDate, placeholder, overlay, isIos).inserts[k];
            ins.tabooSet == TabooSet(t.id, |t.cards|, readDate(t).value)
    ensures var plan := PlanTaboos(json, lookup, readDate, placeholder, overlay, isIos);
            !AllPlaceholders(plan.base, t.id, placeholder) ==> plan.inserts[k].rows == [] && plan.inserts[k].batches == []
    ensures var plan := PlanTaboos(json, lookup, readDate, placeholder, overlay, isIos);
            AllPlaceholders(plan.base, t.id, placeholder) ==>
              && |plan.inserts[k].rows| == |plan.base|
              && forall i :: 0 <= i < |plan.base| ==>
                   plan.inserts[k].rows[i] == Overlaid(t.id, t.cards, plan.base[i].code, placeholder(t.id, plan.base[i]).value, overlay)
  {
    var plan := PlanTaboos(json, lookup, readDate, placeholder, overlay, isIos);
    assert Picked(json, PlanOf(plan.base, readDate, placeholder, overlay, isIos), plan.inserts[k]);
    t :| t in json && PlanOf(plan.base, readDate, placeholder, overlay, isIos)(t) == Some(plan.inserts[k]);
    assert PlanTabooSet(t, plan.base, readDate, placeholder, overlay, isIos) == Some(plan.inserts[k]);
    if AllPlaceholders(plan.base, t.id, placeholder) {
      BaseCardsDistinct(plan.affected, lookup);
      TabooRowsPerBaseCard(t, plan.base, readDate, placeholder, overlay, isIos);
    }
  }

  /** `syncTaboos` once the response is in. */
  function SyncTaboos(cache: Option<CacheToken>, response: Response<seq<TabooJson>>, lookup: map<string, Card>,
                      readDate: TabooJson -> Option<string>, placeholder: (int, Card) -> Option<Card>,
                      overlay: (int, TabooCardJson, Card) -> Option<Card>, isIos: bool): (out: SyncOutcome<TabooPlan>)
    ensures response.NetworkError? ==> out.Failed?
    ensures response.Response? && NotModified(response.status, cache) ==> out == KeepCache(cache.value)
    ensures response.Response? && !NotModified(response.status, cache) ==> (out.Replace? <==> response.body.Some?)
    ensures out.Replace? ==>
              && response.Response? && response.body.Some?
              && out.plan == PlanTaboos(response.body.value, lookup, readDate, placeholder, overlay, isIos)
              && out.lastModified == StampOf(response.lastModified)
  {
    Conclude(cache, response,
             (json: seq<TabooJson>) => Some(PlanTaboos(json, lookup, readDate, placeholder, overlay, isIos)))
  }
}
