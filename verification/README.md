# Tool crib touchscreen: the decision rules, modelled in Dafny

The front end of a tool crib ("outillage") has five pages. Each page holds its own hard-coded catalogue and applies a few inline rules:

- **Sortie** (exit) and **Entrer** (entry). The operator types a MABIC (the inventory code) and presses VÉRIFIER. The page looks the tool up, case-insensitively, and shows it. The operator then types a quantity and validates the movement. The page refuses a missing tool, an empty quantity, a quantity of at most 0 and, on exit, a quantity above the stock. An accepted movement computes the new stock, builds the QR label record and resets the form. The catalogue is never written back.
- **Stocks**. Each row gets a status (`critique`, `faible` or `normal`) from its quantity and its minimum `seuilMin`. The page also lists the critical rows and sums the stock value.
- **Recherche** (search). The page finds the first tool whose MABIC or reference contains the search term.
- **Alertes** (alerts). The page splits the alerts into active and resolved ones, counts the active ones per severity, and labels each alert type.

The model uses immutable datatypes and pure functions. The exit and entry handlers (`Lookup`, `Exit`, `Entry`) are transition functions: each takes the page state (the page's catalogue plus its form) and returns the next state together with an outcome tag. Toasts become tags such as `MissingData`, `InsufficientStock` and `Recorded`.

Modules:

| module | file | models |
|---|---|---|
| `Options` | options.dfy | `null` and empty fields |
| `Text` | text.dfy | `trim` (used for the blank test), ASCII `toLowerCase`/`toUpperCase`, `includes` |
| `Seqs` | seqs.dfy | `Array.prototype.find` (first index) and `filter` |
| `Catalogue` | catalogue.dfy | the tool record, the MABIC lookup and the QR label record |
| `ToolForm` | toolform.dfy | the form shared by Sortie and Entrer: lookup, field edits, the label, the validation guard |
| `Sortie` | sortie.dfy | `handleExit`, the stock colour, `getStockWarning`, the button and the preview, a whole session |
| `Entrer` | entrer.dfy | `handleEntry`, the label, the button and the preview, a whole session |
| `Stocks` | stocks.dfy | `getStockStatus`, `getCriticalItems`, `getTotalValue` |
| `Recherche` | recherche.dfy | `handleSearch` and the not-found card |
| `Alertes` | alertes.dfy | the active/resolved filters, the counters, `getAlertTypeLabel`, the empty states |
| `Scenarios` | scenarios.dfy | the pages' mock data, what an exit sees after an entry, worked examples |

Sortie.tsx and Entrer.tsx contain the same `handleMabicLookup` (lines 32-49 in both files) and nearly the same `generateQRLabel`. The model defines each of these once, in `ToolForm`.

The code has no ledger, movement history, alert regeneration or per-item exit threshold: the catalogue is never updated, and the exit warning uses the constant 2. The lookup compares the untrimmed input, and the search returns only the first match. The model follows the code. In particular, an entry followed by an exit of the same quantity does not give the stock back, because the stock an entry reports is never written back (`Scenarios.EntryNotWrittenBack`).

`generateQRLabel` is called before the reset (Sortie.tsx:81 before lines 84-86, Entrer.tsx:70 before lines 73-75), so it sees the form as filled in. The model builds the label from that form.

## Model

| member | source | states |
|---|---|---|
| `Text.BlankIffAllWhitespace` | src/pages/Sortie.tsx:33 | `!mabic.trim()` holds exactly when every character of the field is ECMAScript whitespace, so an empty field is blank too |
| `Text.BlankIgnoresCase` | src/pages/Recherche.tsx:34 | two terms that differ only in letter case are both blank or both not |
| `Text.Contains` | src/pages/Recherche.tsx:39-40 | `includes` is true exactly when the term occurs at some index of the string |
| `Seqs.FindFirst` | src/pages/Sortie.tsx:35-37 | `find` returns an index whose element passes the test with no earlier element passing, and returns nothing only when no element passes |
| `Seqs.Filter` | src/pages/Alertes.tsx:87-88 | `filter` keeps the passing elements in their original order, each as often as in the input, and drops every other element |
| `Seqs.FilterFilter` | src/pages/Alertes.tsx:118 | filtering the active alerts by severity equals one filter on "active and of that severity" |
| `Seqs.ExclusiveFiltersBounded` | src/pages/Alertes.tsx:118-146 | filters by three mutually exclusive tests keep at most as many elements, together, as the input has |
| `Catalogue.FindByMabic` | src/pages/Sortie.tsx:35-37 | the lookup returns the first record whose lower-cased MABIC equals the lower-cased input, and returns nothing exactly when no record matches |
| `Catalogue.FindByMabicIgnoresCase` | src/pages/Entrer.tsx:35-37 | inputs that agree up to letter case find the same record |
| `ToolForm.Lookup` | src/pages/Sortie.tsx:32-49 | a blank MABIC changes nothing; otherwise only the tool changes: the first match on a hit, null on a miss (no record matches); the catalogue is kept, and a shown tool always comes from the catalogue |
| `ToolForm.EditMabic` | src/pages/Sortie.tsx:164 | the field stores exactly the typed text upper-cased: same length, no lower-case ASCII letter left, and the same lower-case fold as the typed text; nothing else changes |
| `ToolForm.EditQuantite` | src/pages/Sortie.tsx:220 | the quantity field takes the typed value; nothing else changes |
| `ToolForm.EditedLookupIgnoresCase` | src/pages/Entrer.tsx:131 | upper-casing in `onChange` does not change the lookup's outcome or the tool it finds |
| `ToolForm.Label` | src/pages/Sortie.tsx:89-99 | no label without a tool and a quantity; otherwise the label carries the tool's MABIC and reference, the quantity and the operation |
| `Sortie.Exit` | src/pages/Sortie.tsx:51-87 | an exit is refused with the page unchanged when data is missing (no tool, no quantity, quantity ≤ 0) or the quantity exceeds the stock; there is no partial exit; an accepted exit reports stock − quantity, which lies in [0, stock), resets the form, and never touches the catalogue |
| `Sortie.StockTone` | src/pages/Sortie.tsx:195-197 | the stock is green above 5, orange from 3 to 5, red at 2 or below |
| `Sortie.StockToneMonotonic` | src/pages/Sortie.tsx:195-197 | more stock never gives a more alarming colour |
| `Sortie.StockWarning` | src/pages/Sortie.tsx:109-113 | the warning shows exactly when a tool and a quantity are present and stock − quantity ≤ 2, and it states that remainder |
| `Sortie.WarningIffRedTone` | src/pages/Sortie.tsx:112-113 | the warning shows exactly when the remaining stock would be coloured red |
| `Sortie.WarningOnOverdraw` | src/pages/Sortie.tsx:63-70 | for a request above the stock, the exit is refused and the warning still shows, with a negative remainder |
| `Sortie.WarningAgreesWithExit` | src/pages/Sortie.tsx:73 | for an accepted exit, the warning shows iff the reported new stock is ≤ 2, and it shows that same value |
| `Sortie.ExitEnabledIffRecorded` | src/pages/Sortie.tsx:229 | the button is enabled exactly when 0 < quantity ≤ stock with a tool shown, which is exactly when `handleExit` records the exit |
| `Sortie.DisabledValidateChangesNothing` | src/pages/Sortie.tsx:225-229 | with the button disabled (no tool, empty quantity, quantity ≤ 0 or above the stock), validating leaves the page as it is and reports no stock |
| `Sortie.ExitPreview` | src/pages/Sortie.tsx:239-244 | the "Stock après sortie" preview shows exactly when the button is enabled, with a value in [0, stock) |
| `Sortie.PreviewMatchesExit` | src/pages/Sortie.tsx:244 | the preview announces exactly the new stock the exit then reports |
| `Sortie.Handle` | src/pages/Sortie.tsx:160-233 | each user action keeps the catalogue and keeps "the tool shown comes from the catalogue"; any new stock it reports is ≥ 0 |
| `Sortie.Run` | src/pages/Sortie.tsx:17-30 | over any sequence of user actions, the catalogue is never modified and every reported new stock is ≥ 0 |
| `Entrer.Entry` | src/pages/Entrer.tsx:51-76 | an entry is refused with the page unchanged when data is missing (no tool, no quantity, quantity ≤ 0); an accepted one reports stock + quantity, strictly above the stock and with no upper bound, and resets the form |
| `Entrer.EntryLabelCarriesRequest` | src/pages/Entrer.tsx:78-88 | the label carries the tool's MABIC, its reference, the requested quantity and operation `'ENTREE'` |
| `Entrer.EntryEnabledIffRecorded` | src/pages/Entrer.tsx:190 | the button is enabled exactly when `handleEntry` records the entry |
| `Entrer.DisabledValidateChangesNothing` | src/pages/Entrer.tsx:186-190 | with the button disabled (no tool, empty quantity or quantity ≤ 0), validating leaves the page as it is and reports no stock |
| `Entrer.EntryPreview` | src/pages/Entrer.tsx:197-202 | the preview shows exactly when the button is enabled, with a value above the stock |
| `Entrer.PreviewMatchesEntry` | src/pages/Entrer.tsx:202 | the preview announces exactly the new stock the entry then reports |
| `Entrer.Handle` | src/pages/Entrer.tsx:127-194 | each user action keeps the catalogue; any new stock it reports exceeds the stock of some catalogue tool |
| `Entrer.Run` | src/pages/Entrer.tsx:61-62 | over any sequence of user actions, the catalogue is never modified and every reported stock exceeds the stock of some catalogue tool |
| `Stocks.StockStatus` | src/pages/Stocks.tsx:58-62 | `critique` iff quantity ≤ minimum; `faible` iff minimum < quantity ≤ 1.5 × minimum; `normal` iff quantity is above both; exactly one applies |
| `Stocks.NormalAboveBand` | src/pages/Stocks.tsx:60-61 | with a non-negative minimum, `normal` iff quantity > 1.5 × minimum |
| `Stocks.FaibleBandNonEmpty` | src/pages/Stocks.tsx:60 | the `faible` band is empty for minimums 0 and 1 (and below), and holds minimum + 1 from 2 upwards |
| `Stocks.StatusMonotonic` | src/pages/Stocks.tsx:58-62 | with the minimum fixed, more stock never gives a more severe status |
| `Stocks.CriticalItems` | src/pages/Stocks.tsx:54-56 | the critical list is an order-preserving subsequence holding exactly the rows whose status is `critique`, each as often as in the table |
| `Stocks.CriticalCardIffSomeCritique` | src/pages/Stocks.tsx:179 | the "ALERTES CRITIQUES" card shows exactly when some row is `critique` |
| `Stocks.TotalValue` | src/pages/Stocks.tsx:50-52 | the left-to-right `reduce` from 0 equals the sum of quantity × unit value over the rows, and is 0 for an empty table |
| `Stocks.SumConcat` | src/pages/Stocks.tsx:51 | the total is additive over concatenated tables |
| `Stocks.SumNonNegative` | src/pages/Stocks.tsx:51 | with non-negative quantities and prices, the total is non-negative |
| `Recherche.FindByTerm` | src/pages/Recherche.tsx:37-41 | the search returns the first tool whose lower-cased MABIC or reference contains the lower-cased term, and nothing exactly when none does |
| `Recherche.Search` | src/pages/Recherche.tsx:33-44 | a blank term leaves the state, including the previous result, unchanged; otherwise the result is the first match, or null when nothing matches; the term is kept |
| `Recherche.EditTerm` | src/pages/Recherche.tsx:82 | typing changes the term and leaves the shown result as it was |
| `Recherche.SearchIgnoresCase` | src/pages/Recherche.tsx:39-40 | changing the letter case of the term does not change the result |
| `Recherche.NotFoundAfterSearch` | src/pages/Recherche.tsx:145 | after a search on a non-blank term, the not-found card shows exactly when no tool matches |
| `Recherche.NotFoundForWhitespaceTerm` | src/pages/Recherche.tsx:145-149 | a whitespace-only term with no earlier result shows the not-found card, although no search ran |
| `Recherche.LookupHitIsSearchHit` | src/pages/Recherche.tsx:37-41 | when a non-blank input matches a tool's MABIC exactly (ignoring case), as the exit and entry pages require, the search finds a tool, at that catalogue position or earlier |
| `Alertes.ActiveAlerts` | src/pages/Alertes.tsx:87 | exactly the alerts with status `'active'`, in original order, each as often as in the input |
| `Alertes.ResolvedAlerts` | src/pages/Alertes.tsx:88 | exactly the alerts with status `'resolved'`, in original order, each as often as in the input |
| `Alertes.ActiveResolvedDisjoint` | src/pages/Alertes.tsx:87-88 | no alert is both active and resolved, and the two lists together are no longer than the input |
| `Alertes.Summarize` | src/pages/Alertes.tsx:118-160 | each severity counter counts only the active alerts of that severity; the three counters sum to at most the number of active alerts; the fourth card counts the resolved alerts |
| `Alertes.TypeLabel` | src/pages/Alertes.tsx:77-85 | the four known types map to their fixed labels; `'ALERTE'` is produced exactly for every other type |
| `Alertes.TypeLabelIdentifiesKnownKind` | src/pages/Alertes.tsx:79-82 | different known types get different labels |
| `Alertes.EmptyStateIffNoActive` | src/pages/Alertes.tsx:179 | "Aucune alerte active" shows exactly when no alert has status `'active'` |
| `Alertes.ResolvedSectionIffSomeResolved` | src/pages/Alertes.tsx:223 | the resolved section shows exactly when some alert has status `'resolved'` |
| `Scenarios.TypeAndVerifyFinds` | src/pages/Sortie.tsx:32-49 | typing a non-blank MABIC in any letter case, pressing VÉRIFIER, then typing a quantity shows the first catalogue record matching the MABIC, with the field upper-cased and the quantity kept |
| `Scenarios.EntryOnShownTool` | src/pages/Entrer.tsx:51-76 | an entry of a positive quantity on a shown tool reports stock + quantity, with the tool's codes on an `'ENTREE'` label, and resets the form |
| `Scenarios.ExitOnShownTool` | src/pages/Sortie.tsx:51-87 | an exit of a positive quantity on a shown tool reports stock − quantity when that is not negative, and is otherwise refused as insufficient stock |
| `Scenarios.EntryNotWrittenBack` | src/pages/Entrer.tsx:61-62 | after a recorded entry of q, the same MABIC typed again, VÉRIFIER, and the same quantity, on that page's catalogue, find the tool with its old stock, so an exit of q reports the old stock − q (or is refused), not the stock the entry reported |
| `Scenarios.Mab001InLowerCaseFound` | src/pages/Sortie.tsx:17-37 | on the page's catalogue, the input "mab001" is not blank and identifies MAB001 |
| `Scenarios.Mab001Typed` | src/pages/Sortie.tsx:32-49 | typing "mab001", pressing VÉRIFIER and typing a quantity on the page's catalogue shows MAB001 |
| `Scenarios.ExitFiveOfMab001` | src/pages/Sortie.tsx:51-87 | typing "mab001", pressing VÉRIFIER, then typing 5: MAB001 (stock 15) is shown, the exit is accepted, leaves 10, and shows no warning |
| `Scenarios.ExitTooMany` | src/pages/Sortie.tsx:63-70 | `handleExit`, when called with 999 against a stock of 15, refuses it as insufficient stock with the page unchanged; on the page the button is disabled for this input, so validating changes nothing and no "Stock insuffisant" toast appears |
| `Scenarios.EntryNegative` | src/pages/Entrer.tsx:52-58 | `handleEntry`, when called with −3, refuses it as missing data with the page unchanged; on the page the button is disabled for this input, so validating changes nothing and no "Données manquantes" toast appears |
| `Scenarios.StockPageFigures` | src/pages/Stocks.tsx:11-56 | on the stock page's table only MAB003 is critical, and the total is 9930.00 € |

## Left out

- Routing and static screens (src/App.tsx, src/pages/Menu.tsx, src/pages/Index.tsx). They only navigate.
- JSX layout, CSS class strings and icons. `getSeverityColor` and `getSeverityIcon` (src/pages/Alertes.tsx:59-75) choose presentation only.
- Toast notifications, `console.log` and `navigate`. These are side effects; outcome tags stand in for the toasts.
- The `date` field of the QR label. It reads the clock and the locale (`toLocaleDateString('fr-FR')`).
- `parseInt` on arbitrary text, including its NaN result, which passes both the `<= 0` test and the `>` test. The quantity field is an optional integer, with None for an empty field, because the input has `type="number"`. `parseInt`'s truncation of "1.5" or "1e3" is not modelled.
- The `min` and `max` attributes of the number input. They only mark the field invalid and limit the spinner arrows, and a typed value outside them stays in the field. The button's own `disabled` test (Sortie.tsx:229, Entrer.tsx:190) refuses exactly what the handler refuses (`Sortie.ExitEnabledIffRecorded`, `Entrer.EntryEnabledIffRecorded`), so the handlers' refusal branches cannot be reached from the page. Validating on a disabled button changes nothing, like a click on a disabled button (`Sortie.DisabledValidateChangesNothing`, `Entrer.DisabledValidateChangesNothing`).
- Floating-point values. Unit values are integer cents, so `Stocks.TotalValue` computes an exact sum where the page computes a float sum. `toFixed(2)` is display only.
- Full Unicode case mapping. `toLowerCase` and `toUpperCase` are modelled on ASCII letters only, which is enough for MABIC and reference codes.
- The search page's `emplacement` and `image` fields, and its quantity colour (src/pages/Recherche.tsx:130). They are display only.
- The "VOIR DÉTAILS" and "MARQUER RÉSOLU" buttons (src/pages/Alertes.tsx:207-212). They have no handlers, so there is no resolve transition.
- Entrer.Entry: quantities are JavaScript numbers (IEEE doubles), which are exact integers only up to 2^53. The model's unbounded `int` makes "stock + quantity is strictly above the stock" hold for all sizes, whereas the page guarantees it only in that range.
- Sortie.Exit: stock − quantity is computed on doubles as well. The model's exact difference agrees with the page only for magnitudes up to 2^53.
- An entry-then-exit round trip. The page promises none, because the stock an entry reports is never written back. `Scenarios.EntryNotWrittenBack` states what happens instead.
