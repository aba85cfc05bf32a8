/**
 * The form the exit page (Sortie) and the entry page (Entrer) share: a MABIC
 * field that upper-cases what is typed, a number field for the quantity, and
 * the tool identified by the last lookup. Both pages hold their own copy of
 * the catalogue, which nothing ever changes.
 */
module ToolForm {
  import opened Options
  import Text
  import opened Catalogue

  /** `mabic`, `quantite` (None for an empty field) and `toolInfo` (None for `null`). */
  datatype Form = Form(mabic: string, quantite: Option<int>, toolInfo: Option<Tool>)

  /** The form after a successful movement: both fields emptied, no tool. */
  const EmptyForm: Form := Form("", None, None)

  /** A page: its catalogue and its form. */
  datatype Page = Page(db: seq<Tool>, form: Form)

  /** A page handler's result: the next page and what happened. */
  datatype Step<+O> = Step(page: Page, outcome: O)

  datatype LookupOutcome = Skipped | Identified | Unknown

  /** Every tool the form shows comes from the page's catalogue. */
  predicate ToolFromCatalogue(p: Page) {
    p.form.toolInfo.Some? ==> p.form.toolInfo.value in p.db
  }

  /** `handleMabicLookup` (VÉRIFIER). */
  function Lookup(p: Page): (r: Step<LookupOutcome>)
    ensures r.page.db == p.db
    ensures r.outcome == Skipped <==> Text.IsBlank(p.form.mabic)
    ensures r.outcome == Skipped ==> r.page == p
    ensures r.outcome != Skipped ==>
      r.page.form.mabic == p.form.mabic && r.page.form.quantite == p.form.quantite
    ensures r.outcome == Identified ==>
      && r.page.form.toolInfo.Some?
      && r.page.form.toolInfo.value in p.db
      && MabicMatches(r.page.form.toolInfo.value, p.form.mabic)
      && r.page.form.toolInfo == FindByMabic(p.db, p.form.mabic)
    ensures r.outcome == Unknown ==>
      && r.page.form.toolInfo.None?
      && forall j :: 0 <= j < |p.db| ==> !MabicMatches(p.db[j], p.form.mabic)
    ensures ToolFromCatalogue(p) ==> ToolFromCatalogue(r.page)
  {
    if Text.IsBlank(p.form.mabic) then Step(p, Skipped)
    else
      var found := FindByMabic(p.db, p.form.mabic);
      var next := p.(form := p.form.(toolInfo := found));
      if found.Some? then Step(next, Identified) else Step(next, Unknown)
  }

  /** The MABIC field's `onChange`: the typed text, upper-cased. */
  function EditMabic(p: Page, text: string): (r: Page)
    ensures r.db == p.db && r.form.quantite == p.form.quantite && r.form.toolInfo == p.form.toolInfo
    ensures r.form.mabic == Text.Upper(text)
    ensures |r.form.mabic| == |text| && forall i :: 0 <= i < |text| ==> !('a' <= r.form.mabic[i] <= 'z')
    ensures Text.Lower(r.form.mabic) == Text.Lower(text)
  {
    Text.LowerOfUpper(text);
    p.(form := p.form.(mabic := Text.Upper(text)))
  }

  /** The quantity field's `onChange`. */
  function EditQuantite(p: Page, quantite: Option<int>): (r: Page)
    ensures r.db == p.db && r.form.mabic == p.form.mabic && r.form.toolInfo == p.form.toolInfo
    ensures r.form.quantite == quantite
  {
    p.(form := p.form.(quantite := quantite))
  }

  /**
   * Upper-casing in the field's `onChange` does not matter to the lookup:
   * the result is the one the raw typed text would have given.
   */
  lemma EditedLookupIgnoresCase(p: Page, text: string)
    ensures Lookup(EditMabic(p, text)).outcome == Lookup(p.(form := p.form.(mabic := text))).outcome
    ensures Lookup(EditMabic(p, text)).page.form.toolInfo
         == Lookup(p.(form := p.form.(mabic := text))).page.form.toolInfo
  {
    var typed := p.(form := p.form.(mabic := text));
    var edited := EditMabic(p, text);
    Text.BlankIgnoresCase(edited.form.mabic, text);
    FindByMabicIgnoresCase(p.db, edited.form.mabic, text);
  }

  /** `generateQRLabel`: nothing without a tool and a quantity, else the tool's codes and the quantity. */
  function Label(form: Form, operation: Operation): (r: Option<QrLabel>)
    ensures r.Some? <==> form.toolInfo.Some? && form.quantite.Some?
    ensures r.Some? ==>
      && r.value.mabic == form.toolInfo.value.mabic
      && r.value.reference == form.toolInfo.value.reference
      && r.value.quantite == form.quantite.value
      && r.value.operation == operation
  {
    if form.toolInfo.None? || form.quantite.None? then None
    else Some(QrLabel(form.toolInfo.value.mabic, form.toolInfo.value.reference, form.quantite.value, operation))
  }

  /** The guard `handleExit` and `handleEntry` share: a tool, a quantity, and the quantity positive. */
  predicate Ready(form: Form) {
    form.toolInfo.Some? && form.quantite.Some? && form.quantite.value > 0
  }

  /** The user actions a counter page reacts to. */
  datatype Event = TypeMabic(text: string) | TypeQuantite(quantite: Option<int>) | Verify | Validate
}
