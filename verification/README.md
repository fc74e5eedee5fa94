# D&D sheet logic: a Dafny model

This project models the pure logic of the D&D pages of the site (`assets/js/dnd/*.js`)
and proves what that logic promises. It covers six parts:

- **The parser-combinator kernel** (`parsers.js`). It has parse results, `Parser.match` (a
  terminal pattern or a sub-parser), the `Sequence` constructor that anchors its regular
  expressions, and `Sequence.parse`.
- **The `IdAttr` grammar** (`value.js`). It parses `id:attr` value references. It also covers
  `extractIdAttr`/`extractIdAttrs`, and the default policy of `initValueReference`: the
  element's own id, and the attribute `value`.
- **Dice** (`dnd.js`). It has `range`, the deterministic roll functions and `rollDie`.
- **Entity rows** (`entity.js`). It has the constructor's score, modifier, save, initiative
  and bound arithmetic. It also has `getBonuses`, one round of `input`, the key predicate of
  bound actions, `roll` and `reset`.
- **Encounters** (`encounter.js`). It has the initiative comparator, `sort` with its
  selection reset, `selectNext`, `setAbilitySuffix` and `getEncounter`.
- **Actions** (`actions.js`). It has the `{alt, ctrl, shift}` key-flag fold of `initAction`.

Modules follow the files:

| module | covers |
|---|---|
| `Outcomes` | optional values, and what the code throws |
| `Tokens` | the fixed token classes that stand in for regular expressions |
| `Parsers` | the parser kernel |
| `Values` | the `IdAttr` grammar and extraction |
| `Dice` | dice rolling |
| `Entities` | entity rows |
| `Encounters` | encounters |
| `Actions` | action key flags |

### Regular expressions as token classes

Every terminal of the parser grammars has one of two shapes:

- a start character followed by any number of continuing characters: `[a-zA-Z_][\w.]*`
  for element ids, `[a-zA-Z_]\w*` for attribute names;
- a single literal character, such as `:`.

Either shape may be wrapped in an optional group `(…)?`. A greedy match of such a pattern
is the longest prefix in its language, so the model replaces the regex engine with a
longest-prefix function per class (`Tokens.TokenAt`).

- **Anchored terminals.** These match only at the start of the input.
- **Unanchored terminals.** `String.prototype.match` searches for the leftmost match, while
  `match` still slices `match[0].length` characters off the *front* of the input. Both are
  modelled. `Parsers.UnanchoredTerminalDropsFromFront` shows the effect on `"a:b"`.
- **What protects `Sequence`.** Every `Sequence` anchors its terminals
  (`Parsers.NewSequence`), so this front-slicing never arises inside one.

The one other regular expression, `/^(\-?)[0-9]+$/` in `input`, is modelled directly as a
predicate on characters (`Entities.IsIntegerText`).

### The Optional parser

The `Optional` parser is used by `IdAttr` but is defined elsewhere in the site's scripts and
not modelled. It is therefore a parser variant with these assumed behaviours:

- it always succeeds;
- it consumes its inner matcher's greedy match, or nothing;
- it anchors its terminal, as `Sequence` does;
- it lays out its `children` in one of two ways, which is a parameter:

  - **`MatchList`:** the children are an array holding the inner result.
  - **`MatchRecord`:** the children are the inner result object itself.

`extractIdAttr` tests `"children" in x`. That test is false on an array, so:

- under `MatchList`, an id or attribute is never found;
- under `MatchRecord`, the matched text is found;
- the regex-only `IdAttrParser` never yields an id or attribute either.

All three are proved (`Values.IdAttrExtracts`, `Values.IdAttrParserExtractsNothing`).

### Behaviours kept exactly as the code does them

- **`rollDie` rolls once per term.** The `return` inside the `range(1, count)` loop means each
  term contributes exactly one roll, whatever its count. A count below 1 yields an empty
  range, which falls through to the "Unrecognized sign" throw.
- **`extractIdAttr` fails with a `ReferenceError`.** Its failure branch evaluates `inString`,
  a name that is not in scope there. Evaluating it throws a `ReferenceError` before the
  intended message is built, and the model returns that error.
- **`extractIdAttrs` ignores the status.** It maps over `ast.children` without looking at
  the status. A failed parse has no children, so the map yields `[]`.

### Numbers, NaN and inputs

- **Numbers.** JavaScript numbers are integers here. NaN appears in entity arithmetic as
  `Entities.Num.NaN`, which absorbs additions. Comparisons with NaN are false.
- **The roll function.** It is a parameter `int -> int`, so `rollDieMin` and `rollDieMax`
  make dice rolling pure.
- **The prompt answer.** It is a parameter of `Entities.Input`: `None` for a cancelled prompt.
- **Roll terms.** `roll` receives its terms already extracted, because `Roll` and
  `extractRoll` are not part of this model. The default roll `"d20"` is the single term
  `1d20, +` (`Entities.D20`).

## Model

| member | source | states |
|---|---|---|
| Tokens.TokenAtLongest | assets/js/dnd/value.js:1-2 | the token found at a position is in the class's language and no longer prefix is; none is found only when no non-empty prefix is in the language |
| Tokens.PatternAtLongest | assets/js/dnd/parsers.js:100 | an optional-group pattern always matches at a position (possibly the empty word), and the match is the longest prefix in its language |
| Tokens.Anchor | assets/js/dnd/parsers.js:73-75 | anchoring marks the pattern anchored and prefixes `^` to its source exactly when the source did not already start with one |
| Parsers.Match | assets/js/dnd/parsers.js:25-59 | the result carries its matcher, consumes at most the input, and the remainder is the input minus the consumed length; a failure consumes nothing and has no children |
| Parsers.AnchoredTerminalMatch | assets/js/dnd/parsers.js:27-39 | an anchored terminal either yields `[matchedText]` for the longest prefix in its language, with the remainder the input minus that prefix, or fails with `NoMatch(<source>)`, length 0, no children and the input unchanged, and then no prefix matches |
| Parsers.UnanchoredTerminalDropsFromFront | assets/js/dnd/parsers.js:27-31 | an unanchored terminal that matches later in the input still removes its length from the front: `:` on `"a:b"` leaves `":b"` |
| Parsers.CompositeMatch | assets/js/dnd/parsers.js:41-55 | a sub-parser's result is passed on with its children and length, and the remainder is the input sliced by that length; on failure its status is propagated and the input is left unchanged |
| Parsers.NewSequence | assets/js/dnd/parsers.js:69-78 | the Sequence constructor keeps one matcher per argument, anchors every terminal (prefixing `^` to its source only when it lacks one) and keeps sub-parsers unchanged |
| Parsers.Run | assets/js/dnd/parsers.js:80-87 | running the matchers gives one result per matcher, and the final remainder is the input minus the summed lengths |
| Parsers.RunThreadsInput | assets/js/dnd/parsers.js:83-87 | the i-th result is the i-th matcher applied to the input its predecessors left, every matcher runs even after a failure, and a failing matcher passes its input on unchanged |
| Parsers.SequenceParse | assets/js/dnd/parsers.js:88-95 | a sequence is ok iff every child is ok; it then holds one child per matcher in order, with length the sum of the child lengths, equal to the input length minus the final remainder; otherwise its status is the failing statuses joined by ", " in matcher order, with length 0 and no children |
| Parsers.FailuresComplete | assets/js/dnd/parsers.js:88 | every failed result's reason is among the collected failures |
| Parsers.FailuresSound | assets/js/dnd/parsers.js:88 | every collected failure is the reason of some failed result |
| Parsers.FailuresFirst | assets/js/dnd/parsers.js:88 | the failures are in matcher order: the first is the reason of the first failed result, followed by the failures of the results after it |
| Parsers.Parse | assets/js/dnd/parsers.js:80-96 | a parse result is labelled with its parser, never consumes more than the input, and a failure has length 0 and no children |
| Values.IdAttr | assets/js/dnd/value.js:3 | the IdAttr grammar, once built, is the sequence of an optional element id, a colon and an optional attribute name, with every terminal anchored |
| Values.IdAttrParser | assets/js/dnd/parsers.js:100 | the regex-only grammar, once built, is the sequence of an optional-group id pattern, a colon and an optional-group attribute pattern, all anchored |
| Values.IdAttrAccepts | assets/js/dnd/value.js:3 | an IdAttr parse is ok exactly when a `:` follows the (possibly empty) element id at the start of the input, and then consumes id, colon and attribute name, under either Optional layout |
| Values.IdAttrParserAccepts | assets/js/dnd/parsers.js:100 | the regex-only parse is ok exactly when a colon follows the element id, and then consumes id, colon and attribute name |
| Values.IdAttrParserAgrees | assets/js/dnd/parsers.js:100 | the regex-only IdAttrParser accepts exactly the inputs IdAttr accepts, consuming the same length |
| Values.OptionalPart | assets/js/dnd/value.js:7-10 | an optional part yields a value iff its children object has a `children` array of exactly one element, which is returned; a string in its place throws |
| Values.ExtractIdAttr | assets/js/dnd/value.js:5-17 | extraction reads children 0 and 2 only, and succeeds on any ok parse with three children; a non-ok status throws the `inString` ReferenceError |
| Values.IdAttrExtracts | assets/js/dnd/value.js:3-12 | extraction from an IdAttr parse gives the matched id and attribute (null when empty) with the record layout, nulls with the list layout, and throws when no colon follows the id |
| Values.IdAttrParserExtractsNothing | assets/js/dnd/value.js:5-12 | extraction from an IdAttrParser parse yields a null id and a null attribute whenever a colon follows the id, and throws the `inString` ReferenceError otherwise |
| Values.ExtractAll | assets/js/dnd/value.js:19 | mapping extraction over children succeeds iff every child extracts, giving exactly one reference per child, in child order |
| Values.ExtractIdAttrs | assets/js/dnd/value.js:18-20 | extractIdAttrs maps over the children array whatever the status, and throws when children is a record |
| Values.Resolve | assets/js/dnd/value.js:28-29 | a null id becomes the element's own id, a null attribute becomes "value", and present values are kept unchanged |
| Values.InitValueReference | assets/js/dnd/value.js:25-26 | without a `data-value-source` nothing happens (the case with a source is stated by Values.InitValueReferenceReads) |
| Values.InitValueReferenceReads | assets/js/dnd/value.js:27-29 | the value reference read from a source string: the parsed id and attribute or their defaults, or the ReferenceError when no colon follows the id |
| Dice.RollDieMin | assets/js/dnd/dnd.js:5 | the value is no higher than any face of the die, and is itself a face of any die with at least one side |
| Dice.RollDieMax | assets/js/dnd/dnd.js:6 | the value is no lower than any face of the die, and is itself a face of any die with at least one side |
| Dice.Range | assets/js/dnd/dnd.js:2 | `range(start, end)` is `start..end` inclusive in increasing order, and empty when start > end |
| Dice.TermLoop | assets/js/dnd/dnd.js:10-13 | the loop returns on its first pass with one signed roll when the sign is "+" or "-", and runs out otherwise or when the range is empty |
| Dice.Step | assets/js/dnd/dnd.js:9-15 | one reducer call adds (for "+") or subtracts (for "-") exactly one roll when the count is at least 1, and otherwise throws "Unrecognized sign" for the term's sign |
| Dice.RollDie | assets/js/dnd/dnd.js:7-17 | an empty roll is 0 |
| Dice.RollDieMeaning | assets/js/dnd/dnd.js:7-17 | rollDie succeeds iff every term has count >= 1 and sign "+" or "-", and is then the signed sum of one roll per term; otherwise it throws for the first rejected term |
| Dice.RollDieMaxMeaning | assets/js/dnd/dnd.js:6-12 | with rollDieMax, an accepted roll is the sum of the "+" dice minus the sum of the "-" dice |
| Dice.RollDieMinMeaning | assets/js/dnd/dnd.js:5-12 | with rollDieMin, an accepted roll is the number of "+" terms minus the number of "-" terms |
| Dice.CountIgnored | assets/js/dnd/dnd.js:10-13 | changing the count of a term (while it stays >= 1, or stays < 1) does not change the roll |
| Entities.JoinSplit | assets/js/dnd/entity.js:95 | joining the pieces of `split(" ")` with spaces gives back the list string |
| Entities.SplitJoin | assets/js/dnd/entity.js:95 | words without spaces, joined with spaces and split again, come back unchanged |
| Entities.GetBonuses | assets/js/dnd/entity.js:91-100 | getBonuses is 0 when no `<attribute>Bonuses` list exists |
| Entities.GetBonusesMeaning | assets/js/dnd/entity.js:91-100 | getBonuses is 0 without a list, the sum of the values named by the list when all are numbers, and NaN when any named property is missing or NaN |
| Entities.Modifier | assets/js/dnd/entity.js:24 | the modifier m of a score satisfies 2m <= score - 10 <= 2m + 1, i.e. it is floor((score - 10) / 2), and NaN stays NaN |
| Entities.Construct | assets/js/dnd/entity.js:11-36 | construction writes no property outside those it assigns, keeps the dataset and bonus lists, and derives the bounds from the final properties |
| Entities.ConstructHp | assets/js/dnd/entity.js:14-15 | hp and maxHp both start at the parsed data-max-hp |
| Entities.ConstructScores | assets/js/dnd/entity.js:16-21 | each ability score is its data attribute plus the score's bonuses |
| Entities.ConstructModifiers | assets/js/dnd/entity.js:23-26 | each modifier is floor((score - 10) / 2) plus its Mod bonuses, and each save is the modifier plus its Save bonuses |
| Entities.ConstructInitiative | assets/js/dnd/entity.js:27 | initiativeMod is dexMod plus the initiative bonuses |
| Entities.ConstructMeaning | assets/js/dnd/entity.js:14-27 | all of the constructor's formulas together: hp, scores, modifiers, saves and initiative |
| Entities.AttributeBounds | assets/js/dnd/entity.js:29-36 | bounds exist for exactly hp, initiative and every ability's Mod and Save |
| Entities.AttributeBoundsMeaning | assets/js/dnd/entity.js:29-36 | hp's bounds are [0, maxHp]; initiative's are [initiativeMod + 1, initiativeMod + 21]; each Mod and Save's are [x + 1, x + 21] of its own value |
| Entities.BandsSpanTwenty | assets/js/dnd/entity.js:31-35 | every bound other than hp's spans exactly 20 whenever its value is a number |
| Entities.IsIntegerText | assets/js/dnd/entity.js:126 | the text is accepted iff it is non-empty, every character after the first is a digit, and the first is a digit or a minus sign followed by at least one digit |
| Entities.ShowIntRoundTrip | assets/js/dnd/entity.js:126-127 | every integer written in decimal passes the `^(-?)[0-9]+$` test and parses back to itself |
| Entities.Input | assets/js/dnd/entity.js:123-135 | an unbounded attribute throws; a cancelled prompt stores nothing; an answer is stored as the check iff it matches optional minus plus digits and lies within the inclusive bounds; any other answer prompts again |
| Entities.InputStoresWithin | assets/js/dnd/entity.js:126-130 | typing any integer within the bounds stores exactly that integer as `<attribute>Check` |
| Entities.Fires | assets/js/dnd/entity.js:53-59 | the reduce over the action's keys yields true iff every listed key equals the event's flag, and an empty key map always fires |
| Entities.RollCheck | assets/js/dnd/entity.js:141-144 | roll stores rollDie of the terms (default d20) plus the attribute's bonuses as `<attribute>Check`, and throws, storing nothing, exactly when rollDie throws |
| Entities.DefaultRoll | assets/js/dnd/entity.js:141-142 | without a roll the check is one d20 throw plus the bonuses: 1 + bonuses with rollDieMin, 20 + bonuses with rollDieMax |
| Entities.Reset | assets/js/dnd/entity.js:137-139 | reset removes the attribute's check and keeps every other dataset entry |
| Entities.ResetAfterRoll | assets/js/dnd/entity.js:137-144 | resetting after a roll leaves the dataset as resetting alone would |
| Encounters.Compare | assets/js/dnd/encounter.js:19-32 | the comparator is non-positive exactly when the left row ranks first (rolled before unrolled, then descending roll or modifier), and negative exactly when the right row does not rank first |
| Encounters.CompareRanks | assets/js/dnd/encounter.js:19-32 | the comparator orders two rolled rows by descending roll, puts a rolled row before an unrolled one in either argument order, orders unrolled rows by descending initiativeMod, and agrees with that lexicographic rank |
| Encounters.CompareAntisymmetric | assets/js/dnd/encounter.js:19-32 | cmp(a, b) = -cmp(b, a) |
| Encounters.CompareTransitive | assets/js/dnd/encounter.js:19-32 | the order "cmp <= 0" is transitive, so the comparator is consistent |
| Encounters.Sort | assets/js/dnd/encounter.js:19 | the sorted rows are a permutation of the input, ordered by the comparator |
| Encounters.SortedOrder | assets/js/dnd/encounter.js:20-31 | in sorted rows every rolled row precedes every unrolled row, rolls descend, and unrolled rows descend by initiativeMod |
| Encounters.SortClear | assets/js/dnd/encounter.js:33-39 | clearing the selection before or after sorting gives the same rows |
| Encounters.SortEncounter | assets/js/dnd/encounter.js:16-41 | sort() of an empty table throws; otherwise the rows, their selection aside, are a permutation of the input, ordered by the comparator, and exactly the first row is selected |
| Encounters.SortEncounterOrder | assets/js/dnd/encounter.js:33-40 | after sort(), every rolled row precedes every unrolled one, and only the first row is selected |
| Encounters.FirstSelected | assets/js/dnd/encounter.js:76 | the current row is the first selected row, and absent iff no row is selected |
| Encounters.NextIndex | assets/js/dnd/encounter.js:76-80 | the row selectNext picks is conscious, there is none exactly when every row is unconscious, and with no row selected it is the first conscious row |
| Encounters.FirstConscious | assets/js/dnd/encounter.js:77-80 | the first row from a position on that is not unconscious, and absent iff all from there are unconscious |
| Encounters.SelectNext | assets/js/dnd/encounter.js:75-87 | selectNext changes only selection flags: the next row becomes selected, the old current row is cleared unless it is also the next, and every other row keeps its flag |
| Encounters.NextIsCyclicSuccessor | assets/js/dnd/encounter.js:77-80 | the next row is the first conscious row after the current one, wrapping round to the first conscious row overall; with no row selected it is the first conscious row; there is none only when every row is unconscious |
| Encounters.SelectNextKeepsOne | assets/js/dnd/encounter.js:75-87 | with exactly one row selected, selectNext leaves exactly the successor selected, or no row when all are unconscious |
| Encounters.SetAbilitySuffix | assets/js/dnd/encounter.js:89-103 | only '', 'Mod' and 'Save' are accepted, each element naming one of the six abilities gets the suffix and the others are unchanged; any other suffix throws |
| Encounters.GetEncounter | assets/js/dnd/encounter.js:105-115 | a returned element is an encounter and one of the element's ancestors |
| Encounters.GetEncounterNearest | assets/js/dnd/encounter.js:105-115 | getEncounter returns the nearest ancestor that is an encounter, and null iff no ancestor is one |
| Actions.SetKeys | assets/js/dnd/actions.js:15 | every listed key ends up present and true, and every existing key stays present, true if it was |
| Actions.KeyFlags | assets/js/dnd/actions.js:15 | alt, ctrl and shift are always present, and every listed key is true |
| Actions.SetKeysMeaning | assets/js/dnd/actions.js:15 | folding `keys[key] = true` over a list adds exactly the listed keys, sets them true and leaves the others as they were |
| Actions.KeyFlagsMeaning | assets/js/dnd/actions.js:15 | alt, ctrl and shift are always present; a flag is true exactly when its key is listed, so an unlisted modifier stays false |
| Actions.KeyFlagsBySet | assets/js/dnd/actions.js:15 | the flags depend only on the set of listed keys: order and duplicates do not matter |

## Left out

- Entities.ConstructMeaning: it states the constructor's formulas only when no bonus list names a property the constructor assigns. The constructor calls `getBonuses` part-way through its assignments, so a list that names, say, `str` sees either the data value or the bonused value, depending on the order. `Entities.Construct` models that order exactly; the lemma's hypothesis rules the case out.
- Entities.ConstructScores: the score formulas are stated only when no bonus list names a property the constructor assigns, for the reason given for Entities.ConstructMeaning.
- Entities.ConstructModifiers: the modifier and save formulas are stated only when no bonus list names a property the constructor assigns, for the same reason.
- Entities.ConstructInitiative: the initiative formula is stated only when no bonus list names a property the constructor assigns, for the same reason.
- Entities.GetBonuses: bonus values are numbers or NaN. A list that names a string-valued property would make `+=` concatenate strings; that is not modelled.
- Values.IdAttrAccepts: it rests on the assumed behaviour of `Optional`, which is defined elsewhere in the site's scripts and not modelled. `Optional` is assumed to always succeed, to consume its inner matcher's greedy match or nothing, and to anchor its terminal. Values.IdAttr rests on the anchoring assumption for its "every terminal anchored" claim. Values.IdAttrExtracts and Values.InitValueReferenceReads rest on the same assumptions, plus the layout parameter.
- Entities.Input: one round of the prompt is modelled. A rejected answer returns `Again` instead of calling `input` recursively, because the prompt loop is user interaction.
- Entities.RollCheck: the terms are given already extracted. `Roll` and `extractRoll` are not part of this model. `"d20"` is assumed to extract to the one term `1d20, +`.
- Encounters.SortEncounter: `Array.prototype.sort` is modelled as a stable insertion sort. Engines without a stable sort may order rows that compare equal differently. Check values and initiative modifiers are integers. Two NaN cases are not modelled; in both the comparator returns NaN, which `sort` treats as 0:
  - a non-numeric `initiativeCheck`;
  - the NaN `initiativeMod` of an entity without `data-dex` (entity.js:24 and 27).
- Encounters.SelectNext: only entity rows are modelled. Other table rows that the CSS selectors would skip are not.
- Dice.RollDie: numbers are unbounded integers. Floating-point sums and non-integer counts or dice are not modelled.
- `selectPrevious` (encounter.js:43-73) is left out. It walks siblings with CSS selectors such as `tr:last-child.entity:not(.unconscious)`, whose DOM semantics are outside this model.
- `rollDieRandom` uses `Math.random` and floating point. The roll function is a parameter instead.
- `Optional`, `SepBy`, `Roll`, `EventActions`, `EventsWithKeys`, `extractRoll`, `extractEventActions` and `extractEventsWithKeys` are not part of this model.
  - `Optional` is a parser variant whose result layout is a parameter.
  - The `IdAttrs` grammar (`SepBy(/ /, IdAttr)`) is left out with `SepBy`.
- The `throw "Unrecognized Matcher"` branch of `match` is left out. Matchers are a datatype with exactly the two cases, so the branch cannot be reached.
- General regular-expression semantics are left out. Only the fixed token classes used by the grammars are modelled.
- The DOM, `console.log`, `document.readyState` and the init queues are I/O and are left out. This covers:
  - custom-element registration;
  - `update()` and the ability/name rendering;
  - `MutationObserver` wiring and the static `update`/`sort` callbacks;
  - `addEventListener` and the event wrappers;
  - `getElementById(...).dataset[...]` in `initValueReference`;
  - `initValueReferences`, `initActions` and the empty `Actions.prompt`/`Actions.roll`.
- `parseInt` on arbitrary strings is left out. Dataset values enter the model already parsed, with NaN for an absent attribute.
