/** The entry page: putting tools back into, or adding them to, the crib. */
module Entrer {
  import opened Options
  import opened Catalogue
  import opened ToolForm

  datatype EntryOutcome = MissingData | Recorded(newQuantity: int, qr: QrLabel)

  /**
   * `handleEntry` (VALIDER ENTRÉE). A rejected entry changes nothing; an
   * accepted one reports stock plus quantity, with no upper bound, and resets
   * the form. The catalogue itself is never updated.
   */
  function Entry(p: Page): (r: Step<EntryOutcome>)
    ensures r.page.db == p.db
    ensures r.outcome.MissingData? <==> !Ready(p.form)
    ensures r.outcome.MissingData? ==> r.page == p
    ensures r.outcome.Recorded? ==>
      && r.outcome.newQuantity - p.form.quantite.value == p.form.toolInfo.value.quantite
      && r.outcome.newQuantity > p.form.toolInfo.value.quantite
      && r.page.form == EmptyForm
  {
    if !Ready(p.form) then Step(p, MissingData)
    else
      var tool, added := p.form.toolInfo.value, p.form.quantite.value;
      Step(p.(form := EmptyForm), Recorded(tool.quantite + added, Label(p.form, Operation.Entry).value))
  }

  /** The label printed after an entry carries the tool's MABIC and reference, the quantity, and `'ENTREE'`. */
  lemma EntryLabelCarriesRequest(p: Page)
    requires Entry(p).outcome.Recorded?
    ensures Entry(p).outcome.qr
         == QrLabel(p.form.toolInfo.value.mabic, p.form.toolInfo.value.reference, p.form.quantite.value, Operation.Entry)
    ensures Entry(p).outcome.qr.operation.Code() == "ENTREE"
  {
  }

  /** The VALIDER ENTRÉE button is enabled: it exists only with a tool, and is disabled for an empty or non-positive quantity. */
  predicate EntryEnabled(form: Form) {
    form.toolInfo.Some? && !(form.quantite.None? || form.quantite.value <= 0)
  }

  /** The button is enabled exactly when pressing it would record the entry. */
  lemma EntryEnabledIffRecorded(p: Page)
    ensures EntryEnabled(p.form) <==> Entry(p).outcome.Recorded?
  {
  }
  /**
   * The page calls `handleEntry` only from the button, so validating with
   * the button disabled leaves the page as it is and reports no stock.
   */
  lemma DisabledValidateChangesNothing(p: Page)
    requires !EntryEnabled(p.form)
    ensures Handle(p, Validate) == (p, None)
  {
    EntryEnabledIffRecorded(p);
  }


  /** The "Nouveau stock après entrée" preview: shown for a positive quantity, with stock plus quantity. */
  function EntryPreview(form: Form): (r: Option<int>)
    ensures r.Some? <==> EntryEnabled(form)
    ensures r.Some? ==> r.value > form.toolInfo.value.quantite
  {
    if form.toolInfo.Some? && form.quantite.Some? && form.quantite.value > 0
    then Some(form.toolInfo.value.quantite + form.quantite.value)
    else None
  }

  /** The preview announces exactly the new stock the entry then reports. */
  lemma PreviewMatchesEntry(p: Page)
    ensures EntryPreview(p.form).Some? <==> Entry(p).outcome.Recorded?
    ensures EntryPreview(p.form).Some? ==> EntryPreview(p.form).value == Entry(p).outcome.newQuantity
  {
  }

  /** `v` exceeds the stock of some tool of the catalogue. */
  ghost predicate AboveSomeStock(db: seq<Tool>, v: int) {
    exists t :: t in db && v > t.quantite
  }

  /** One user action on the entry page; the second component is the new stock a recorded entry reports. */
  function Handle(p: Page, e: Event): (r: (Page, Option<int>))
    ensures r.0.db == p.db
    ensures ToolFromCatalogue(p) ==> ToolFromCatalogue(r.0)
    ensures ToolFromCatalogue(p) && r.1.Some? ==> AboveSomeStock(p.db, r.1.value)
  {
    match e
    case TypeMabic(text) => (EditMabic(p, text), None)
    case TypeQuantite(q) => (EditQuantite(p, q), None)
    case Verify => (Lookup(p).page, None)
    case Validate =>
      var s := Entry(p);
      (s.page, if s.outcome.Recorded? then Some(s.outcome.newQuantity) else None)
  }

  /** A whole session on the entry page: every reported stock exceeds the stock of some catalogue tool. */
  function Run(p: Page, events: seq<Event>): (r: (Page, seq<int>))
    ensures r.0.db == p.db
    ensures ToolFromCatalogue(p) ==> ToolFromCatalogue(r.0)
    ensures |r.1| <= |events|
    ensures ToolFromCatalogue(p) ==> forall k :: 0 <= k < |r.1| ==> AboveSomeStock(p.db, r.1[k])
    decreases |events|
  {
    if |events| == 0 then (p, [])
    else
      var (next, reported) := Handle(p, events[0]);
      var (last, rest) := Run(next, events[1..]);
      (last, (if reported.Some? then [reported.value] else []) + rest)
  }
}
