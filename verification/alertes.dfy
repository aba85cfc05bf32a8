/** The alert page: active and resolved alerts, the counters, and the type labels. */
module Alertes {
  import Seqs

  /**
   * One alert. `kind` (`type` in the page), `severity` and `status` are the
   * page's free strings: the page compares them with literals and has a
   * default label for any type it does not know.
   */
  datatype Alert = Alert(
    id: int, kind: string, severity: string, message: string,
    timestamp: string, status: string, mabic: string)

  predicate IsActive(a: Alert) { a.status == "active" }
  predicate IsResolved(a: Alert) { a.status == "resolved" }
  predicate IsHigh(a: Alert) { a.severity == "high" }
  predicate IsMedium(a: Alert) { a.severity == "medium" }
  predicate IsLow(a: Alert) { a.severity == "low" }
  predicate IsActiveHigh(a: Alert) { IsActive(a) && IsHigh(a) }
  predicate IsActiveMedium(a: Alert) { IsActive(a) && IsMedium(a) }
  predicate IsActiveLow(a: Alert) { IsActive(a) && IsLow(a) }

  /** `activeAlerts`: exactly the alerts whose status is `'active'`, in their original order. */
  function ActiveAlerts(alerts: seq<Alert>): (r: seq<Alert>)
    ensures Seqs.IsSubsequence(r, alerts)
    ensures forall a :: a in r <==> a in alerts && a.status == "active"
    ensures forall a :: multiset(r)[a] == if a.status == "active" then multiset(alerts)[a] else 0
  {
    Seqs.Filter(alerts, IsActive)
  }

  /** `resolvedAlerts`: exactly the alerts whose status is `'resolved'`, in their original order. */
  function ResolvedAlerts(alerts: seq<Alert>): (r: seq<Alert>)
    ensures Seqs.IsSubsequence(r, alerts)
    ensures forall a :: a in r <==> a in alerts && a.status == "resolved"
    ensures forall a :: multiset(r)[a] == if a.status == "resolved" then multiset(alerts)[a] else 0
  {
    Seqs.Filter(alerts, IsResolved)
  }

  /** No alert is both active and resolved, and the two lists together are no longer than the whole. */
  lemma ActiveResolvedDisjoint(alerts: seq<Alert>)
    ensures forall a :: a in ActiveAlerts(alerts) ==> a !in ResolvedAlerts(alerts)
    ensures |ActiveAlerts(alerts)| + |ResolvedAlerts(alerts)| <= |alerts|
  {
    Seqs.ExclusiveFiltersBounded(alerts, IsActive, IsResolved, _ => false);
  }

  /** The four summary cards: Critiques, Moyennes, Faibles, Résolues. */
  datatype Summary = Summary(high: nat, medium: nat, low: nat, resolved: nat)

  /**
   * The summary counters. Each severity counter filters the active alerts, so
   * a resolved alert never counts towards a severity.
   */
  function Summarize(alerts: seq<Alert>): (r: Summary)
    ensures r.high == |Seqs.Filter(alerts, IsActiveHigh)|
    ensures r.medium == |Seqs.Filter(alerts, IsActiveMedium)|
    ensures r.low == |Seqs.Filter(alerts, IsActiveLow)|
    ensures r.high + r.medium + r.low <= |ActiveAlerts(alerts)|
    ensures r.resolved == |ResolvedAlerts(alerts)|
  {
    var active := ActiveAlerts(alerts);
    Seqs.FilterFilter(alerts, IsActive, IsHigh, IsActiveHigh);
    Seqs.FilterFilter(alerts, IsActive, IsMedium, IsActiveMedium);
    Seqs.FilterFilter(alerts, IsActive, IsLow, IsActiveLow);
    Seqs.ExclusiveFiltersBounded(active, IsHigh, IsMedium, IsLow);
    Summary(
      |Seqs.Filter(active, IsHigh)|,
      |Seqs.Filter(active, IsMedium)|,
      |Seqs.Filter(active, IsLow)|,
      |ResolvedAlerts(alerts)|)
  }

  /** The four alert types the page names. */
  predicate IsKnownKind(kind: string) {
    kind == "stock_critique" || kind == "maintenance" || kind == "expiration" || kind == "retour_retard"
  }

  /** `getAlertTypeLabel`. */
  function TypeLabel(kind: string): (r: string)
    ensures kind == "stock_critique" ==> r == "STOCK CRITIQUE"
    ensures kind == "maintenance" ==> r == "MAINTENANCE"
    ensures kind == "expiration" ==> r == "EXPIRATION"
    ensures kind == "retour_retard" ==> r == "RETOUR RETARD"
    ensures r == "ALERTE" <==> !IsKnownKind(kind)
  {
    match kind
    case "stock_critique" => "STOCK CRITIQUE"
    case "maintenance" => "MAINTENANCE"
    case "expiration" => "EXPIRATION"
    case "retour_retard" => "RETOUR RETARD"
    case _ => "ALERTE"
  }

  /** Different known types get different labels, so a label other than ALERTE names its type. */
  lemma TypeLabelIdentifiesKnownKind(a: string, b: string)
    requires IsKnownKind(a) && IsKnownKind(b) && TypeLabel(a) == TypeLabel(b)
    ensures a == b
  {
  }

  /** "Aucune alerte active" shows exactly when no alert has status `'active'`. */
  lemma EmptyStateIffNoActive(alerts: seq<Alert>)
    ensures |ActiveAlerts(alerts)| == 0 <==> forall i :: 0 <= i < |alerts| ==> alerts[i].status != "active"
  {
    var r := ActiveAlerts(alerts);
    if |r| > 0 {
      assert r[0] in r;
    }
    if i :| 0 <= i < |alerts| && alerts[i].status == "active" {
      assert alerts[i] in r;
    }
  }

  /** The resolved section shows exactly when some alert has status `'resolved'`. */
  lemma ResolvedSectionIffSomeResolved(alerts: seq<Alert>)
    ensures |ResolvedAlerts(alerts)| > 0 <==> exists i :: 0 <= i < |alerts| && alerts[i].status == "resolved"
  {
    var r := ResolvedAlerts(alerts);
    if |r| > 0 {
      assert r[0] in r;
    }
    if i :| 0 <= i < |alerts| && alerts[i].status == "resolved" {
      assert alerts[i] in r;
    }
  }
}
