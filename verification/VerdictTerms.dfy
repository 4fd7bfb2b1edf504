/** What the verdicts of evals and of gates have in common. */
module VerdictTerms {

  datatype Severity = Advisory | Blocking

  function SeverityText(s: Severity): string {
    match s
    case Advisory => "advisory"
    case Blocking => "blocking"
  }

  lemma SeverityTextInjective(s: Severity, t: Severity)
    requires SeverityText(s) == SeverityText(t)
    ensures s == t
  {
    assert SeverityText(s)[0] == SeverityText(t)[0];
  }
}
