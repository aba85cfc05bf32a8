/** The tool records the exit, entry and search pages look up, and the QR label they print. */
module Catalogue {
  import opened Options
  import Text
  import Seqs

  /** One catalogue record: MABIC (inventory code), reference, designation and stock on hand. */
  datatype Tool = Tool(mabic: string, reference: string, designation: string, quantite: int)

  /** The lookup test: the stored MABIC equals the typed one once both are lower-cased. */
  predicate MabicMatches(t: Tool, input: string) {
    Text.Lower(t.mabic) == Text.Lower(input)
  }

  /** `db[i]` is the first record whose MABIC matches `input`. */
  ghost predicate IsFirstMabicMatch(db: seq<Tool>, input: string, i: int) {
    0 <= i < |db| && MabicMatches(db[i], input) && forall j :: 0 <= j < i ==> !MabicMatches(db[j], input)
  }

  /** The `find` of `handleMabicLookup`: exact, case-insensitive, first hit; the input is not trimmed. */
  function FindByMabic(db: seq<Tool>, input: string): (r: Option<Tool>)
    ensures r.Some? ==> exists i :: IsFirstMabicMatch(db, input, i) && db[i] == r.value
    ensures r.None? <==> forall j :: 0 <= j < |db| ==> !MabicMatches(db[j], input)
  {
    match Seqs.FindFirst(db, t => MabicMatches(t, input))
    case Some(i) =>
      assert IsFirstMabicMatch(db, input, i);
      Some(db[i])
    case None => None
  }

  /** Two inputs that agree up to letter case find the same record. */
  lemma FindByMabicIgnoresCase(db: seq<Tool>, a: string, b: string)
    requires Text.Lower(a) == Text.Lower(b)
    ensures FindByMabic(db, a) == FindByMabic(db, b)
  {
    assert forall t :: MabicMatches(t, a) == MabicMatches(t, b);
    var ra, rb := FindByMabic(db, a), FindByMabic(db, b);
    if ra.Some? && rb.Some? {
      var i :| IsFirstMabicMatch(db, a, i) && db[i] == ra.value;
      var j :| IsFirstMabicMatch(db, b, j) && db[j] == rb.value;
      assert !(i < j) && !(j < i);
    }
  }

  /** The movement a label records: `'SORTIE'` or `'ENTREE'`. */
  datatype Operation = Exit | Entry {
    function Code(): string {
      match this
      case Exit => "SORTIE"
      case Entry => "ENTREE"
    }
  }

  /** The `qrData` record of `generateQRLabel`, without its date. */
  datatype QrLabel = QrLabel(mabic: string, reference: string, quantite: int, operation: Operation)
}
