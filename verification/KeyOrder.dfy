/** The two strict total orders in which object keys are written. */
module KeyOrder {
  import opened Decimal

  /** `CodeUnits` is `sort()` on strings; `Properties` is how a record lists keys added in that order. */
  datatype Order = CodeUnits | Properties

  function Lex(a: string, b: string): bool {
    if b == "" then false
    else if a == "" then true
    else if a[0] != b[0] then a[0] < b[0]
    else Lex(a[1..], b[1..])
  }

  const MAX_INDEX := "4294967295"

  /** Canonical text of an integer below 2^32 - 1: such keys are listed first, by value. */
  predicate IsIndex(key: string) {
    && key != "" && AllDigits(key) && (key[0] == '0' ==> key == "0")
    && (|key| < |MAX_INDEX| || (|key| == |MAX_INDEX| && Lex(key, MAX_INDEX)))
  }

  predicate Before(o: Order, a: string, b: string) {
    if o.Properties? && IsIndex(a) != IsIndex(b) then IsIndex(a)
    else if o.Properties? && IsIndex(a) && |a| != |b| then |a| < |b|
    else Lex(a, b)
  }

  lemma {:induction false} LexTotal(a: string, b: string)
    ensures a != b ==> Lex(a, b) || Lex(b, a)
    ensures !(Lex(a, b) && Lex(b, a))
    ensures !Lex(a, a)
    decreases |a|
  {
    if a != "" {
      LexTotal(a[1..], a[1..]);
      if b != "" && a[0] == b[0] {
        assert a == [a[0]] + a[1..] && b == [b[0]] + b[1..];
        LexTotal(a[1..], b[1..]);
      }
    }
  }

  lemma {:induction false} LexTransitive(a: string, b: string, c: string)
    requires Lex(a, b) && Lex(b, c)
    ensures Lex(a, c)
    decreases |a|
  {
    if a != "" && a[0] == b[0] == c[0] {
      LexTransitive(a[1..], b[1..], c[1..]);
    }
  }

  /** Any two different keys are ordered one way, never both, and the order is transitive. */
  lemma BeforeIsStrictTotal(o: Order, a: string, b: string, c: string)
    ensures a != b <==> Before(o, a, b) || Before(o, b, a)
    ensures !(Before(o, a, b) && Before(o, b, a))
    ensures Before(o, a, b) && Before(o, b, c) ==> Before(o, a, c)
  {
    LexTotal(a, b);
    if Lex(a, b) && Lex(b, c) {
      LexTransitive(a, b, c);
    }
  }
}
