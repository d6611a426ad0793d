# ArkhamCards card-catalogue sync and deck-edit reducer, in Dafny

This project models two pure-logic parts of the ArkhamCards companion app and
proves properties of the model.

1. **The catalogue sync** of `src/lib/publicApi.ts`, with its network and
   store I/O taken out. `syncCards`, `syncTaboos` and `syncRules` become
   pure functions. The request header comes from the caller's cache token
   and the live row count. The syncs themselves take the cache token, the
   fetched response, the already-parsed records and the parsers the code
   calls. Their outcome is the unchanged token, a plan of inserts, or a
   failure (a network error, or a parser that throws). The plan covers:
   - the conditional GET (`If-Modified-Since`, and the 304 short-circuit,
     as in sections 13.1.3 and 15.4.5 of RFC 9110);
   - link de-duplication and the flat card list;
   - the derived fields: reprint pack lists, encounter-set sizes, bonded
     flags, upgrade flags and id suffixing;
   - the three insert phases (back faces, linked fronts, normal cards), each
     cut into batches of 50 on iOS and 8 elsewhere;
   - rule flattening to depth two, and the language fallback to English;
   - the taboo overlay: one variant row per resolved base card per taboo
     list.
2. **The deck-edit reducer** of `src/reducers/deckEdits.ts`. It is a pure
   state transition over three maps keyed by deck id: pending `edits`, the
   `editting` flags and the card `checklist`s. It handles all nine action
   types, and any other action leaves the state unchanged.

Modules:
- `Wrappers`: `Option`, and JavaScript string truthiness.
- `Seqs`: flatten, lodash `uniq`, counting, decimal rendering.
- `Chunks`: lodash `chunk` and `insertChunk`.
- `ConditionalFetch`: cache tokens, the request header and how a sync ends.
- `Cards`: the card record.
- `Links`: de-duplication, `flatCards` and the insert phases.
- `Derived`: the derived-field pass.
- `CardSync`: `syncCards`.
- `Rules`: `rulesJson` and `syncRules`.
- `Taboos`: `syncTaboos`.
- `DeckEdits`: the reducer.

In the source, a front card and its back face in `flatCards` are the same
objects, so the derivation pass updates both at once. The model derives on
the flat list and then rebuilds each front around its derived back face
(`Links.Relink`). `Links.RelinkFlat` proves that the flattened result is the
derived list again.

Behaviour worth noting:
- **Which cards de-duplication drops.** `linkedSet` holds each front's
  code together with its `linked_card` *object*, and the filter looks up
  codes. So a card without a link is dropped only when its code equals the
  code of a front that has a link; a card that is only some front's back
  face, but carries a different code, stays at the top level.
  `Links.DedupDropsExactly` states this. `Links.BackFaceCopyKept` shows the
  consequence: a top-level copy of a back face with its own code is stored
  twice.
- **Upgrade flags need a deck limit.** A card counts as a player card only
  when it has a positive `deck_limit`. With two printings of a name, xp 0
  and xp 2, and no deck limit on the xp 0 card, the group has a single
  member and neither flag is touched. With a deck limit on both cards, the
  xp 0 card gets `has_upgrades` true and the xp 2 card false.
  `Derived.UpgradeExample` shows both cases.
- **The index in a suffixed id** is the card's position within its id
  group, counted in `flatCards` order, not a batch index.

## Model

| member | source | states |
|---|---|---|
| Chunks.Chunk | src/lib/publicApi.ts:130 | For a size of at least 1, the chunks concatenate back to the input, each is non-empty and at most `size` long, and all but the last are exactly `size` long. A size below 1 gives no chunks. |
| Chunks.InsertChunk | src/lib/publicApi.ts:129-132 | The batches concatenate back to the input. Each is non-empty and holds at most 50 items on iOS. Elsewhere a batch holds at most `maxInsert`, or 8 when `maxInsert` is undefined or 0. A negative `maxInsert` yields no batches at all. |
| ConditionalFetch.IfModifiedSince | src/lib/publicApi.ts:197-209 | A header is sent exactly when a token exists, has a non-empty `lastModified` and a positive count, and the live count equals that count. The header is the token's stamp, unchanged. |
| ConditionalFetch.MismatchForcesFullFetch | src/lib/publicApi.ts:203-208 | A token whose count differs from the live count never produces a conditional request. |
| ConditionalFetch.HeaderReplaysToken | src/lib/publicApi.ts:206-208 | A matching token replays its `Last-Modified` verbatim. |
| ConditionalFetch.StampOf | src/lib/publicApi.ts:220 | The response stamp is kept exactly when it is a non-empty string. |
| ConditionalFetch.Conclude | src/lib/publicApi.ts:210-221 | A network error fails. A 304 with a token returns that token. Any other response replaces exactly when the body parsed and building the plan did not throw. The plan is the one built from the body, with the response's stamp. |
| ConditionalFetch.NotModifiedWithoutCacheReplaces | src/lib/publicApi.ts:215-217 | A 304 without a token does not short-circuit. With a readable body and a plan that builds, the full replace runs. |
| Seqs.Uniq | src/lib/publicApi.ts:41-46 | lodash `uniq`: the result holds the same elements as the input, has no duplicates and is no longer than the input. |
| Seqs.UniqExtends | src/lib/publicApi.ts:41-46 | `uniq` keeps first occurrences in order: the result for a prefix is a prefix of the result for the whole list. |
| Seqs.NatToStringInjective | src/lib/publicApi.ts:354 | Distinct indices render as distinct decimal strings in `${idx}`. |
| Links.Dedup | src/lib/publicApi.ts:297-298 | Each card occurs as often as in the input when it has a link or its code is not a front code, and otherwise not at all. |
| Links.KeepCardsAppend | src/lib/publicApi.ts:297-298 | The filter keeps feed order: the kept cards of two lists back to back are the kept cards of the first followed by those of the second. |
| Links.DedupDropsExactly | src/lib/publicApi.ts:297-298 | A card with a link is always kept. A card without one is dropped exactly when some card with a link has the same code. |
| Links.BackFaceCopyKept | src/lib/publicApi.ts:297-301 | A top-level copy of a back face whose code matches no front code is kept, so it lands both in the back-face phase and among the normal cards. |
| Links.FlatCards | src/lib/publicApi.ts:299-301 | `flatCards` has one entry per kept card plus one per back face. |
| Links.FlatLayout | src/lib/publicApi.ts:299-301 | Card i of `dedupedCards` sits in `flatCards` after all earlier cards and their back faces, and its back face, if any, comes right after it. |
| Links.Fronts | src/lib/publicApi.ts:359 | The linked fronts (phase two) are cards of the input that have a link. |
| Links.Normals | src/lib/publicApi.ts:359 | The normal cards (phase three) are cards of the input without a link. |
| Links.Backs | src/lib/publicApi.ts:362-364 | Phase one has one back face per linked front, and the k-th front's `linked_card` is the k-th back face. |
| Links.PhasesCoverFlat | src/lib/publicApi.ts:359-372 | The three phases together insert exactly the cards of `flatCards`, counting multiplicity. |
| Links.Relink | src/lib/publicApi.ts:299-301 | Rebuilding the fronts around their derived back faces keeps one card per kept card and keeps every front linked. |
| Links.RelinkFlat | src/lib/publicApi.ts:299-301 | Flattening the rebuilt cards gives the derived flat list again, up to the refreshed links, and keeps the number of linked fronts. |
| Derived.Reprints | src/lib/publicApi.ts:283-288 | The reprint list of a code is empty exactly when no parsed card duplicates that code. |
| Derived.DupesMap | src/lib/publicApi.ts:276-290 | The accumulated `dupes` map has a key exactly when some parsed card duplicates it. Its value is the feed-ordered pack codes of those cards. |
| Derived.EncounterTotal | src/lib/publicApi.ts:313-315 | An encounter code that no non-hidden card carries has size 0. |
| Derived.EncounterCounts | src/lib/publicApi.ts:302-315 | The accumulated counts have a key exactly when a non-hidden card carries that encounter code. The value is the sum of `quantity \|\| 1` over those cards. |
| Derived.BondedNames | src/lib/publicApi.ts:307-318 | A name is collected exactly when some card of `flatCards` has it as a non-empty `bonded_name`. |
| Derived.GroupXps | src/lib/publicApi.ts:319-325 | The xp list of a name group holds the xp of every player card with that `real_name`, and nothing else. |
| Derived.GroupXpsCountsMembers | src/lib/publicApi.ts:324-327 | The group's xp list has exactly one entry per player card of `flatCards` with that name, so its length is `cardsGroup.length`. |
| Derived.MaxXp | src/lib/publicApi.ts:328 | The xp of the head of the descending sort is in the group and no smaller than any member's xp. |
| Derived.UpgradeFlagMeaning | src/lib/publicApi.ts:324-336 | In a group of two or more, `has_upgrades` is set, and it is false exactly when no member has more xp. Non-player cards and singleton groups keep their flag. |
| Derived.GroupHasTopCard | src/lib/publicApi.ts:326-334 | Every group of two or more has a member flagged false. |
| Derived.UpgradeExample | src/lib/publicApi.ts:319-336 | Two printings with xp 0 and 2 get true and false when both are deck-limited. Without a deck limit on the first, neither flag is set. |
| Derived.SuffixedIdShape | src/lib/publicApi.ts:351-357 | An id that occurs once is unchanged. A shared id becomes `<id>_<n>`, with n below the size of its group. |
| Derived.SuffixedIdsDistinct | src/lib/publicApi.ts:351-357 | Two cards that shared an id end up with different ids. |
| Derived.DeriveFlat | src/lib/publicApi.ts:302-357 | The pass changes only the derived fields and the id. Reprint lists come from the parsed feed. Encounter sizes are the set totals. `bonded_from` becomes true exactly for named bonded cards and is otherwise kept. Upgrade flags follow the group maximum, and ids are suffixed per group. |
| Derived.EncounterSizesAgree | src/lib/publicApi.ts:340-344 | All cards with the same encounter code report the same size. |
| Derived.BondedNeverCleared | src/lib/publicApi.ts:345-347 | `bonded_from` is never set to false, and a true flag stays true. |
| CardSync.Parsed | src/lib/publicApi.ts:279-296 | The records `Card.fromJson` accepted are kept, and failed ones are skipped. |
| CardSync.ParsedCounts | src/lib/publicApi.ts:279-296 | Each accepted card occurs in the parsed list exactly as often as its record occurs in the feed. |
| CardSync.ParsedAppend | src/lib/publicApi.ts:279-296 | Parsing keeps feed order: the cards of two feeds back to back are the cards of the first followed by those of the second. |
| CardSync.DedupKeepsGenericFirst | src/lib/publicApi.ts:275-298 | `dedupedCards` is the custom investigator, when it survives de-duplication, followed by the kept feed cards in feed order. |
| CardSync.Stored | src/lib/publicApi.ts:299-357 | The cards the store receives are `dedupedCards`, one per kept card. Flattened, they are the derived `flatCards` card for card, up to links, because the derivation pass also updates each front's shared back face. |
| CardSync.PlanCards | src/lib/publicApi.ts:275-372 | The back-face phase inserts exactly `Links.Backs` of the stored cards, the linked-front phase exactly `Links.Fronts`, and the normal phase exactly `Links.Normals`. Together they insert the flattened stored cards, and the k-th front links to the k-th back face of the earlier phase. Batches are non-empty and at most 50 long on iOS and 8 elsewhere. The stored rows are the derived `flatCards`, up to links. |
| CardSync.InsertedRow | src/lib/publicApi.ts:340-372 | Every inserted row is a row of the derived `flatCards`, up to its link. |
| CardSync.InsertedEncounterSizes | src/lib/publicApi.ts:302-315 | Every inserted card with an encounter code carries the total of `quantity \|\| 1` over the non-hidden cards of that set in `flatCards`. |
| CardSync.InsertedBondedFlags | src/lib/publicApi.ts:345-347 | Every inserted card whose `real_name` some card names as bonded has `bonded_from` true. |
| CardSync.SyncCards | src/lib/publicApi.ts:210-240 | A network error yields null. A 304 with a token returns the token. A 304 without a token still runs the full sync. Past the 304, the sync replaces exactly when the body parsed, the rules bundle parsed and the custom investigator was built; otherwise it yields null. A replace carries the response's stamp and the rules plan and card plan built from the language and the body. |
| Rules.RulesBundle | src/lib/publicApi.ts:134-146 | es, ru and de select their own bundles. Every other language, and no language, selects English. |
| Rules.BundleLanguageRoundTrip | src/lib/publicApi.ts:134-146 | Each bundle is the one selected for its own language code. |
| Rules.SimpleRules | src/lib/publicApi.ts:158 | The simple side of the partition holds only rules with undefined sub-rules. |
| Rules.ComplexRules | src/lib/publicApi.ts:158 | The complex side holds only rules whose sub-rule list is defined, even when it is empty. |
| Rules.PartitionCoversRules | src/lib/publicApi.ts:158 | Every parsed rule goes to exactly one side. |
| Rules.TwoLevels | src/lib/publicApi.ts:163 | The flattened children list holds exactly the children and their own children. |
| Rules.ComplexBatch | src/lib/publicApi.ts:160-165 | A complex rule's insert starts with the rule and holds exactly the rule, its children and its grandchildren. |
| Rules.ComplexBatchDepth | src/lib/publicApi.ts:160-165 | A great-grandchild that is not also at depth two or less is not inserted. |
| Rules.ParseLanguage | src/lib/publicApi.ts:154 | `Rule.parse` receives the given language when it is a non-empty string, and `en` otherwise. |
| Rules.SyncRules | src/lib/publicApi.ts:148-166 | The sync fails exactly when parsing the language's bundle throws. Otherwise the bundle follows the language, and the simple rules are batched (non-empty batches, at most 50 on iOS and 8 elsewhere). There is one insert per complex rule, and each insert is exactly that rule's complex batch: the rule, then its children each followed by their own children. |
| Taboos.ListedCodes | src/lib/publicApi.ts:41-46 | A code is listed exactly when some entry of some taboo list has it. |
| Taboos.AffectedCodes | src/lib/publicApi.ts:41-46 | `allTabooCards` is duplicate-free and holds exactly the codes listed by some taboo list. |
| Taboos.PrepareBaseRows | src/lib/publicApi.ts:48-56 | No variant row remains. Every other row is kept, with a null `taboo_set_id` set to 0 when its code is affected. Every remaining row came from the table, unchanged or marked 0. |
| Taboos.Marked | src/lib/publicApi.ts:52-56 | A row with a null `taboo_set_id` and an affected code gets `taboo_set_id` 0. Any other row is unchanged, and marking never touches another field. |
| Taboos.BaseCards | src/lib/publicApi.ts:59-66 | `baseTabooCards` holds the store's row for each affected code that has one, and only those rows. |
| Taboos.BaseCardsDistinct | src/lib/publicApi.ts:59-66 | When the store answers each code with a row of that code, the base cards have distinct codes, all affected. |
| Taboos.Placeholders | src/lib/publicApi.ts:80-85 | The placeholders fail exactly when `Card.placeholderTabooCard` fails for some base card. Otherwise there is one key per base card code, and for the last base card with a code the value is that card's placeholder. |
| Taboos.Overlaid | src/lib/publicApi.ts:87-101 | A code that the list never names keeps its placeholder. |
| Taboos.ApplyListed | src/lib/publicApi.ts:87-101 | The overlay loop keeps the keys. Each variant becomes its start value with every entry for its code applied in list order, and a failed overlay leaves it unchanged. Codes without a variant are skipped. |
| Taboos.PlanTabooSet | src/lib/publicApi.ts:75-110 | A list whose `TabooSet.fromJson` fails writes nothing. Otherwise the set records its id and the number of listed cards. When every placeholder builds, there is one row per distinct base code. When one throws, the list is stored with no rows. The rows go out in non-empty batches of at most 4 (50 on iOS). |
| Taboos.UniqOfDistinct | src/lib/publicApi.ts:102 | A duplicate-free key list is its own `uniq`, so the rows follow the base cards one to one. |
| Taboos.VariantRows | src/lib/publicApi.ts:102 | `values(tabooCardsToSave)` yields the saved variant of each distinct base code exactly once. The model orders them by the first assignment of their code; see "## Left out" for the integer-key order JavaScript uses. |
| Taboos.TabooRowsPerBaseCard | src/lib/publicApi.ts:80-102 | With distinct base codes and every placeholder built, there is one row per base card: its placeholder, overlaid by every entry for its code in list order. In the model's key order, row k belongs to base card k. |
| Taboos.ListedSets | src/lib/publicApi.ts:75-79 | Every list that `TabooSet.fromJson` accepts is stored, with its id and number of listed cards; there is at most one stored list per feed list. |
| Taboos.ListedSetsAppend | src/lib/publicApi.ts:75-79 | The loop keeps feed order: the lists stored for two feeds back to back are those of the first followed by those of the second. |
| Taboos.ListedSetsRecordCounts | src/lib/publicApi.ts:79 | Each stored list records the id of a feed list and the number of cards that list names. |
| Taboos.PlanInserts | src/lib/publicApi.ts:74-111 | The stored lists are those `TabooSet.fromJson` accepts, in feed order. Each insert is exactly `PlanTabooSet` of some list of the feed, rows and batches included. Every list gets one row per distinct base code, or none when a placeholder for it throws. |
| Taboos.PlanTaboos | src/lib/publicApi.ts:41-115 | The affected codes are exactly the listed codes, without duplicates. The base cards are the store's rows for them, and every resolved one is included. The inserts are `PlanInserts` over the feed and those base cards, so each is some list's own plan. The stored lists are the accepted ones, each with one row per distinct base code, or none when a placeholder for it throws. |
| Taboos.TabooRowsPerResolvedCard | src/lib/publicApi.ts:59-109 | When the store answers each code with a row of that code, every base card is affected. Every list then gets exactly one row per resolved base card, or none when a placeholder for it throws. |
| Taboos.TabooVariantsPerResolvedCard | src/lib/publicApi.ts:59-109 | When the store answers each code with a row of that code, each insert stores some list of the feed. If every placeholder for that list builds, row i is base card i's placeholder with every entry of the list for its code overlaid in list order. Otherwise the list has no rows and no batches. |
| Taboos.SyncTaboos | src/lib/publicApi.ts:22-46 | A network error fails. A 304 with a token returns the token. Past the 304, the sync replaces exactly when the body parsed. A replace carries the response's stamp and the taboo plan built from the body. |
| DeckEdits.StartEdit | src/reducers/deckEdits.ts:39-58 | The deck is marked as being edited. With a deck, the edits start with no pending name or taboo change. The deck's slots, meta, ignored-limit slots and xp adjustment are copied, with `{}` or 0 when undefined. Without a deck, edits are unchanged. Other ids and checklists are unchanged. |
| DeckEdits.FinishEdit | src/reducers/deckEdits.ts:59-69 | The id leaves both `edits` and `editting`. Other ids and checklists are unchanged. |
| DeckEdits.FinishUndoesStart | src/reducers/deckEdits.ts:39-69 | Finishing an edit undoes starting it on an id that had neither entry. |
| DeckEdits.ApplyUpdates | src/reducers/deckEdits.ts:77-96 | Each field whose update is defined is replaced, and every other field is kept. |
| DeckEdits.EmptyUpdateIsIdentity | src/reducers/deckEdits.ts:79-96 | An update with every field undefined changes nothing. |
| DeckEdits.UpdateEdit | src/reducers/deckEdits.ts:71-104 | Without edits for the id the state is returned unchanged. Otherwise only that id's edits change. |
| DeckEdits.NewCount | src/reducers/deckEdits.ts:133-143 | `dec` gives max(n-1, 0), never negative. `inc` gives min(n+1, limit \|\| 2), never above the effective limit. `set` stores the value. |
| DeckEdits.DecUndoesInc | src/reducers/deckEdits.ts:137-142 | Removing a card right after adding one restores a count that had room below the limit. |
| DeckEdits.IncUndoesDec | src/reducers/deckEdits.ts:137-142 | Adding a card right after removing one restores a positive count within the limit. |
| DeckEdits.ApplyCount | src/reducers/deckEdits.ts:130-146 | After the operation the code is absent exactly when its new count is 0, and present with that count otherwise. All other codes keep their counts. |
| DeckEdits.CountBounds | src/reducers/deckEdits.ts:137-146 | The stored count after `dec` is never negative, and after `inc` never above the effective limit. |
| DeckEdits.NewXp | src/reducers/deckEdits.ts:112-118 | `inc` and `dec` move `xpAdjustment` by exactly one with no clamping, and `set` replaces it. |
| DeckEdits.ApplyCounts | src/reducers/deckEdits.ts:112-153 | An xp operation changes only `xpAdjustment`. A slot operation changes only the chosen map, `slots` or `ignoreDeckLimitSlots`, with undefined `slots` read as `{}`. |
| DeckEdits.UpdateCounts | src/reducers/deckEdits.ts:106-162 | Without edits for the id the state is returned unchanged. Otherwise only that id's edits change. |
| DeckEdits.Without | src/reducers/deckEdits.ts:177 | Every occurrence of the card is removed, and every other card keeps its number of occurrences. |
| DeckEdits.ResetChecklist | src/reducers/deckEdits.ts:163-171 | The deck's checklist becomes empty, and nothing else changes. |
| DeckEdits.SetChecklistCard | src/reducers/deckEdits.ts:172-185 | Checking appends the card even if already present. Unchecking removes every occurrence and keeps every other card. Other decks are unchanged. |
| DeckEdits.UncheckUndoesCheck | src/reducers/deckEdits.ts:172-185 | Checking then unchecking a card leaves no copy of it, and every other card as often as before. |
| DeckEdits.DeleteDeckChecklist | src/reducers/deckEdits.ts:187-198 | Only the deck's checklist entry is removed. Edits and edit flags are unchanged. |
| DeckEdits.UpdateDeckEdits | src/reducers/deckEdits.ts:199-220 | Edits are replaced from the deck only when a deck is given and the id is being edited, with the deck's slots copied as they are. Otherwise the state is unchanged. |
| DeckEdits.ReplaceLocal | src/reducers/deckEdits.ts:222-234 | A local checklist moves to the server deck's id. When both ids are equal, the checklist is lost. Other decks are unchanged. |
| DeckEdits.Reduce | src/reducers/deckEdits.ts:35-236 | Unknown actions leave the state unchanged. Checklist actions touch only checklists, and the others never touch checklists. Only start and finish change the edit flags. |
| DeckEdits.ReducePreservesConsistent | src/reducers/deckEdits.ts:35-236 | Every action keeps pending edits confined to decks marked as being edited. |
| DeckEdits.ReduceAllPreservesConsistent | src/reducers/deckEdits.ts:35-236 | Any sequence of actions from a consistent state, such as the empty default state, stays consistent. |

## Left out

- HTTP: the request, its headers, the URL with its language prefix, and reading `Last-Modified`. The response is a parameter, carrying the status, the header value and the parsed body.
- JSON parsing of the feeds, including the embedded `cards` string of a taboo list. Parsed records are inputs.
- The parsers `Card.fromJson`, `Rule.parse`, `TabooSet.fromJson`, `Card.placeholderTabooCard` and `Card.fromTabooCardJson`. Their code is not part of this model. Each appears as an input or a function parameter (`records`, `generic`, `load`, `readDate`, `placeholder`, `overlay`). For `records`, `generic` and `load`, `None` stands for a call that throws or yields nothing, since a falsy result is skipped or throws at its next use. For `readDate`, `placeholder` and `overlay`, `None` stands only for a call that throws.
- Falsy results of `TabooSet.fromJson`, `Card.placeholderTabooCard` and `Card.fromTabooCardJson`: these parsers always build an object when they return. A falsy `TabooSet.fromJson` result would still be pushed and its rows inserted. A falsy placeholder would drop only that code's row. A falsy overlay would replace the variant with `undefined` and so drop its row. None of these is modelled.
- The store: repositories, query builders, transactions, `clearCache` and the full-table deletes. The live row count and the base-row lookup are parameters; the plans say what is inserted.
- The custom investigator's field values. They are static data; the model sees only the card `generic` that `Card.fromJson` builds from them, placed first.
- The concurrency of `Promise.all` over batches and over taboo lookups, and the un-awaited complex-rule inserts. The model treats them as ordered lists.
- `Platform.OS` (the boolean `isIos`), `VERBOSE`, `console.log`, `Alert` and the `t` translation tag.
- `getFaqEntry`: FAQ fetching and its cache rows are network and store I/O.
- Pack and cycle indexing (`packsByCode`, `cycleNames`). It only feeds `Card.fromJson`.
- JavaScript corner cases: `NaN` counts, and card codes that collide with `Object.prototype` keys such as `constructor`.
- CardSync.SyncCards: the count in the returned token is a recount of the store after the inserts, and is not modelled. The outcome carries only the plan and the stamp.
- Taboos.SyncTaboos: the count in the returned token is a recount of the store's variant rows after the inserts, and is not modelled. A failure here throws instead of returning null; both are `Failed`.
- Taboos.PlanTabooSet: rows, and so batches, are ordered by the first assignment of their code. JavaScript object key order puts integer-like codes (such as `60123`, but not `01001`) first, in numeric order, and the rest after them in assignment order. Only the order of inserts differs.
- Taboos.VariantRows: states the first-assignment order of keys, not JavaScript's integer-keys-first order; the set of rows and their count are as in the source.
- Taboos.TabooRowsPerBaseCard: "row k is base card k's" holds in the model's key order. In the source, rows of integer-like codes move to the front, so the same rows appear in a different order.
- Taboos.TabooVariantsPerResolvedCard: row i belongs to base card i only in the model's key order, as for `Taboos.TabooRowsPerBaseCard`.
- Taboos.TabooRowsPerResolvedCard: requires that the store answers each code with a row of that code. The `code = :code` query guarantees this; the model cannot see it.
- src/icons/EncounterIcon.tsx: a static code-to-icon table of React components.
- The React views (the campaign log, ArkhamButton, TabooSetPicker, the deck list, the campaign guide context) and src/lib/i18n.ts (a foreign language lookup and a display-name table).
