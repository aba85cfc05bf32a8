/** The exit page: taking tools out of the crib. */
module Sortie {
  import opened Options
  import opened Catalogue
  import opened ToolForm

  datatype ExitOutcome =
    | MissingData
    | InsufficientStock(available: int, requested: int)
    | Recorded(newQuantity: int, qr: QrLabel)

  /**
   * `handleExit` (VALIDER SORTIE). A rejected exit changes nothing; an
   * accepted one reports the remaining stock and the label and resets the
   * form. The catalogue itself is never updated.
   */
  function Exit(p: Page): (r: Step<ExitOutcome>)
    ensures r.page.db == p.db
    ensures r.outcome.MissingData? <==> !Ready(p.form)
    ensures r.outcome.InsufficientStock? <==>
      Ready(p.form) && p.form.quantite.value > p.form.toolInfo.value.quantite
    ensures !r.outcome.Recorded? ==> r.page == p
    ensures r.outcome.InsufficientStock? ==>
      r.outcome.available == p.form.toolInfo.value.quantite && r.outcome.requested == p.form.quantite.value
    ensures r.outcome.Recorded? ==>
      && r.outcome.newQuantity + p.form.quantite.value == p.form.toolInfo.value.quantite
      && 0 <= r.outcome.newQuantity < p.form.toolInfo.value.quantite
      && r.page.form == EmptyForm
      && Label(p.form, Operation.Exit) == Some(r.outcome.qr)
  {
    if !Ready(p.form) then Step(p, MissingData)
    else
      var tool, requested := p.form.toolInfo.value, p.form.quantite.value;
      if requested > tool.quantite then Step(p, InsufficientStock(tool.quantite, requested))
      else
        var qr := Label(p.form, Operation.Exit).value;
        Step(p.(form := EmptyForm), Recorded(tool.quantite - requested, qr))
  }

  /** The colour of "Stock disponible": green above 5, orange above 2, red otherwise. */
  datatype Tone = Green | Orange | Red

  function StockTone(quantite: int): (r: Tone)
    ensures r == Green <==> quantite > 5
    ensures r == Orange <==> 2 < quantite <= 5
    ensures r == Red <==> quantite <= 2
  {
    if quantite > 5 then Green else if quantite > 2 then Orange else Red
  }

  /** More stock never gives a more alarming colour. */
  lemma StockToneMonotonic(a: int, b: int)
    requires a <= b
    ensures StockTone(a) == Green ==> StockTone(b) == Green
    ensures StockTone(b) == Red ==> StockTone(a) == Red
  {
  }

  /**
   * `getStockWarning`: the stock that would remain, when a tool and a
   * quantity are present and that remainder is at most 2. The threshold is
   * the constant 2, not a per-item minimum, and the request is not checked
   * against the stock first.
   */
  function StockWarning(form: Form): (r: Option<int>)
    ensures r.Some? <==>
      form.toolInfo.Some? && form.quantite.Some? && form.toolInfo.value.quantite - form.quantite.value <= 2
    ensures r.Some? ==> r.value == form.toolInfo.value.quantite - form.quantite.value
  {
    if form.toolInfo.None? || form.quantite.None? then None
    else
      var remaining := form.toolInfo.value.quantite - form.quantite.value;
      if remaining <= 2 then Some(remaining) else None
  }

  /** The warning shows exactly when the remaining stock would be coloured red. */
  lemma WarningIffRedTone(form: Form)
    ensures StockWarning(form).Some? <==>
      form.toolInfo.Some? && form.quantite.Some?
      && StockTone(form.toolInfo.value.quantite - form.quantite.value) == Red
  {
  }

  /** A request larger than the stock is refused, yet the warning shows, with a negative remainder. */
  lemma WarningOnOverdraw(p: Page)
    requires Ready(p.form) && p.form.quantite.value > p.form.toolInfo.value.quantite
    ensures Exit(p).outcome.InsufficientStock?
    ensures StockWarning(p.form).Some? && StockWarning(p.form).value < 0
  {
  }

  /**
   * For an exit that goes through, the warning and the exit use the same
   * remainder: the warning shows iff the reported new stock is at most 2.
   */
  lemma WarningAgreesWithExit(p: Page)
    requires Exit(p).outcome.Recorded?
    ensures StockWarning(p.form).Some? <==> Exit(p).outcome.newQuantity <= 2
    ensures StockWarning(p.form).Some? ==> StockWarning(p.form).value == Exit(p).outcome.newQuantity
  {
  }

  /**
   * The VALIDER SORTIE button is enabled: the quantity card (and so the
   * button) exists only with a tool, and it is disabled when the quantity is
   * empty, at most 0, or above the stock.
   */
  predicate ExitEnabled(form: Form) {
    && form.toolInfo.Some?
    && !(form.quantite.None? || form.quantite.value <= 0 || form.quantite.value > form.toolInfo.value.quantite)
  }

  /** The button is enabled exactly when pressing it would record the exit. */
  lemma ExitEnabledIffRecorded(p: Page)
    ensures ExitEnabled(p.form) <==> Exit(p).outcome.Recorded?
  {
  }
  /**
   * The page calls `handleExit` only from the button, so a click on a
   * disabled button changes nothing: validating with the button disabled
   * leaves the page as it is and reports no stock.
   */
  lemma DisabledValidateChangesNothing(p: Page)
    requires !ExitEnabled(p.form)
    ensures Handle(p, Validate) == (p, None)
  {
    ExitEnabledIffRecorded(p);
  }


  /** The "Stock après sortie" preview: shown for 0 < quantity <= stock, with the remainder. */
  function ExitPreview(form: Form): (r: Option<int>)
    ensures r.Some? <==> ExitEnabled(form)
    ensures r.Some? ==> 0 <= r.value < form.toolInfo.value.quantite
  {
    if form.toolInfo.Some? && form.quantite.Some?
       && form.quantite.value > 0 && form.quantite.value <= form.toolInfo.value.quantite
    then Some(form.toolInfo.value.quantite - form.quantite.value)
    else None
  }

  /** The preview announces exactly the new stock the exit then reports. */
  lemma PreviewMatchesExit(p: Page)
    ensures ExitPreview(p.form).Some? <==> Exit(p).outcome.Recorded?
    ensures ExitPreview(p.form).Some? ==> ExitPreview(p.form).value == Exit(p).outcome.newQuantity
  {
  }

  /** One user action on the exit page; the second component is the new stock a recorded exit reports. */
  function Handle(p: Page, e: Event): (r: (Page, Option<int>))
    ensures r.0.db == p.db
    ensures ToolFromCatalogue(p) ==> ToolFromCatalogue(r.0)
    ensures r.1.Some? ==> r.1.value >= 0
  {
    match e
    case TypeMabic(text) => (EditMabic(p, text), None)
    case TypeQuantite(q) => (EditQuantite(p, q), None)
    case Verify => (Lookup(p).page, None)
    case Validate =>
      var s := Exit(p);
      (s.page, if s.outcome.Recorded? then Some(s.outcome.newQuantity) else None)
  }

  /** A whole session on the exit page: the final page and every new stock reported, in order. */
  function Run(p: Page, events: seq<Event>): (r: (Page, seq<int>))
    ensures r.0.db == p.db
    ensures ToolFromCatalogue(p) ==> ToolFromCatalogue(r.0)
    ensures |r.1| <= |events|
    ensures forall k :: 0 <= k < |r.1| ==> r.1[k] >= 0
    decreases |events|
  {
    if |events| == 0 then (p, [])
    else
      var (next, reported) := Handle(p, events[0]);
      var (last, rest) := Run(next, events[1..]);
      (last, (if reported.Some? then [reported.value] else []) + rest)
  }
}
