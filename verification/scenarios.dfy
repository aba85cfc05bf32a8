/**
 * The pages' own mock data, and properties that relate one page to another:
 * what an exit sees after an entry on the same catalogue, and worked examples
 * on the mock catalogue.
 */
module Scenarios {
  import opened Options
  import opened Catalogue
  import opened ToolForm
  import Sortie
  import Entrer
  import Stocks

  /** The catalogue the exit and entry pages hold. */
  const CounterDb: seq<Tool> := [
    Tool("MAB001", "REF-2024-001", "Clé dynamométrique 50-250 Nm", 15),
    Tool("MAB002", "REF-2024-002", "Tournevis électrique 18V", 8)
  ]

  /** The stock page's table; unit values in cents. */
  const StockDb: seq<Stocks.StockLine> := [
    Stocks.StockLine("MAB001", "REF-2024-001", "Clé dynamométrique 50-250 Nm", 15, 5, 25000, "A1-B2"),
    Stocks.StockLine("MAB002", "REF-2024-002", "Tournevis électrique 18V", 8, 3, 18000, "A2-C1"),
    Stocks.StockLine("MAB003", "REF-2024-003", "Marteau pneumatique", 2, 5, 45000, "B1-A3"),
    Stocks.StockLine("MAB004", "REF-2024-004", "Perceuse sans fil 24V", 12, 4, 32000, "C1-B2")
  ]

  /** The clerk types `text` in the MABIC field, presses VÉRIFIER, then types `q` in the quantity field. */
  function TypeAndVerify(p: Page, text: string, q: int): Page {
    EditQuantite(Lookup(EditMabic(p, text)).page, Some(q))
  }

  /**
   * Typing a non-blank MABIC, pressing VÉRIFIER and typing a quantity shows
   * the first catalogue record whose MABIC matches it, whatever the case it
   * was typed in.
   */
  lemma {:induction false} TypeAndVerifyFinds(p: Page, text: string, q: int)
    requires exists k :: 0 <= k < |text| && !Text.IsWhitespace(text[k])
    ensures TypeAndVerify(p, text, q) == Page(p.db, Form(Text.Upper(text), Some(q), FindByMabic(p.db, text)))
  {
    Text.BlankIffAllWhitespace(text);
    EditedLookupIgnoresCase(p, text);
  }

  /**
   * The stock an entry reports is never written back to the catalogue. After
   * a recorded entry of `q` on a tool, the same MABIC typed again, checked
   * with VÉRIFIER and sent with the same quantity to an exit on the page's
   * catalogue finds the tool with its old stock: the exit reports the old
   * stock minus `q`, or refuses when `q` exceeds the old stock, and never
   * gives back the stock the entry reported.
   */
  lemma EntryNotWrittenBack(db: seq<Tool>, text: string, t: Tool, q: int)
    requires q > 0
    requires exists k :: 0 <= k < |text| && !Text.IsWhitespace(text[k])
    requires FindByMabic(db, text) == Some(t)
    ensures
      var entry := Entrer.Entry(TypeAndVerify(Page(db, EmptyForm), text, q));
      && entry.outcome == Entrer.Recorded(t.quantite + q, QrLabel(t.mabic, t.reference, q, Operation.Entry))
      && entry.page == Page(db, EmptyForm)
      && Sortie.Exit(TypeAndVerify(entry.page, text, q)).outcome
         == if q <= t.quantite then Sortie.Recorded(t.quantite - q, QrLabel(t.mabic, t.reference, q, Operation.Exit))
            else Sortie.InsufficientStock(t.quantite, q)
  {
    var before := TypeAndVerify(Page(db, EmptyForm), text, q);
    TypeAndVerifyFinds(Page(db, EmptyForm), text, q);
    var entry := Entrer.Entry(before);
    EntryOnShownTool(before, t, q);
    var after := TypeAndVerify(entry.page, text, q);
    TypeAndVerifyFinds(entry.page, text, q);
    ExitOnShownTool(after, t, q);
  }

  /** An entry of `q > 0` on a shown tool reports its stock plus `q` and resets the form. */
  lemma EntryOnShownTool(p: Page, t: Tool, q: int)
    requires q > 0 && p.form.quantite == Some(q) && p.form.toolInfo == Some(t)
    ensures Entrer.Entry(p) == Step(Page(p.db, EmptyForm), Entrer.Recorded(t.quantite + q, QrLabel(t.mabic, t.reference, q, Operation.Entry)))
  {
    Entrer.EntryLabelCarriesRequest(p);
  }

  /** An exit of `q > 0` on a shown tool reports its stock minus `q`, or is refused when `q` exceeds it. */
  lemma ExitOnShownTool(p: Page, t: Tool, q: int)
    requires q > 0 && p.form.quantite == Some(q) && p.form.toolInfo == Some(t)
    ensures Sortie.Exit(p).outcome
         == if q <= t.quantite then Sortie.Recorded(t.quantite - q, QrLabel(t.mabic, t.reference, q, Operation.Exit))
            else Sortie.InsufficientStock(t.quantite, q)
  {
  }

  lemma Mab001NotBlank()
    ensures !Text.IsBlank("mab001")
  {
    Text.BlankIffAllWhitespace("mab001");
    assert !Text.IsWhitespace("mab001"[0]);
  }

  lemma Mab001Folds()
    ensures Text.Lower("MAB001") == "mab001" && Text.Lower("mab001") == "mab001"
  {
    var l := Text.Lower("MAB001");
    assert l[0] == 'm' && l[1] == 'a' && l[2] == 'b' && l[3] == '0' && l[4] == '0' && l[5] == '1';
    Text.LowerIdempotent("MAB001");
  }

  /** "mab001" is not blank and identifies MAB001, the first catalogue record. */
  lemma Mab001InLowerCaseFound()
    ensures !Text.IsBlank("mab001")
    ensures FindByMabic(CounterDb, "mab001") == Some(CounterDb[0])
  {
    Mab001NotBlank();
    Mab001Folds();
    assert MabicMatches(CounterDb[0], "mab001");
    assert IsFirstMabicMatch(CounterDb, "mab001", 0);
  }

  /** Typing "mab001", VÉRIFIER, then any quantity, shows MAB001. */
  lemma Mab001Typed(p: Page, q: int)
    requires p.db == CounterDb
    ensures TypeAndVerify(p, "mab001", q).form.toolInfo == Some(CounterDb[0])
  {
    assert !Text.IsWhitespace("mab001"[0]);
    TypeAndVerifyFinds(p, "mab001", q);
    assert FindByMabic(CounterDb, "mab001") == Some(CounterDb[0]) by {
      Mab001InLowerCaseFound();
    }
  }

  /** Typing "mab001", VÉRIFIER, then 5 on the exit page: MAB001 (15 in stock) is shown, the exit is accepted, 10 left, no warning. */
  lemma ExitFiveOfMab001()
    ensures
      var p := TypeAndVerify(Page(CounterDb, EmptyForm), "mab001", 5);
      && p.form.toolInfo == Some(CounterDb[0])
      && Sortie.Exit(p).outcome.Recorded?
      && Sortie.Exit(p).outcome.newQuantity == 10
      && Sortie.StockWarning(p.form).None?
  {
    var p := TypeAndVerify(Page(CounterDb, EmptyForm), "mab001", 5);
    Mab001Typed(Page(CounterDb, EmptyForm), 5);
    ExitOnShownTool(p, CounterDb[0], 5);
  }

  /**
   * `handleExit` called with 999 against a stock of 15 refuses it as
   * insufficient stock and leaves the page unchanged. On the page itself the
   * button is disabled for this input, so the handler is never called and
   * validating changes nothing.
   */
  lemma ExitTooMany()
    ensures
      var p := Page(CounterDb, Form("MAB001", Some(999), Some(CounterDb[0])));
      && Sortie.Exit(p) == Step(p, Sortie.InsufficientStock(15, 999))
      && !Sortie.ExitEnabled(p.form)
      && Sortie.Handle(p, Validate) == (p, None)
  {
  }

  /**
   * `handleEntry` called with -3 refuses it as missing data and leaves the
   * page unchanged. On the page itself the button is disabled for this
   * input, so the handler is never called and validating changes nothing.
   */
  lemma EntryNegative()
    ensures
      var p := Page(CounterDb, Form("MAB001", Some(-3), Some(CounterDb[0])));
      && Entrer.Entry(p) == Step(p, Entrer.MissingData)
      && !Entrer.EntryEnabled(p.form)
      && Entrer.Handle(p, Validate) == (p, None)
  {
  }

  /** On the stock page's table only MAB003 is critical, and the total is 9930.00 euros. */
  lemma StockPageFigures()
    ensures Stocks.CriticalItems(StockDb) == [StockDb[2]]
    ensures Stocks.Sum(StockDb) == 993000
  {
    assert StockDb[..3][..2][..1][..0] == [];
    assert Stocks.Sum(StockDb[..1]) == 375000;
    assert Stocks.Sum(StockDb[..2]) == 519000 by {
      assert StockDb[..2][..1] == StockDb[..1];
    }
    assert Stocks.Sum(StockDb[..3]) == 609000 by {
      assert StockDb[..3][..2] == StockDb[..2];
    }
    assert StockDb[..4] == StockDb;
  }
}
