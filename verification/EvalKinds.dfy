/** The kinds of evals and of their checks, and how their names are normalized. */
module EvalKinds {
  import opened JsText

  datatype Kind =
    | Schema | Presence | ArtifactSchema | Completeness | SourceFidelity
    | Deterministic
    | ModelAssisted | ModelGraded | Visual | Browser | HumanReview
    | Other(text: string)

  function LowerChar(c: char): char {
    if 'A' <= c <= 'Z' then c - 'A' + 'a' else c
  }

  function Lower(s: string): string {
    seq(|s|, i requires 0 <= i < |s| => LowerChar(s[i]))
  }

  predicate IsSeparator(c: char) {
    c == '-' || c == '.' || c == ' '
  }

  function DropSeparators(s: string): (r: string)
    ensures |r| <= |s| && r == s[|s| - |r|..]
    ensures r != "" ==> !IsSeparator(r[0])
  {
    if s != "" && IsSeparator(s[0]) then DropSeparators(s[1..]) else s
  }

  /** `s.replace(/[-. ]+/g, "_")` */
  function Collapse(s: string): string
    decreases |s|
  {
    if s == "" then ""
    else if IsSeparator(s[0]) then "_" + Collapse(DropSeparators(s[1..]))
    else [s[0]] + Collapse(s[1..])
  }

  function NormalizeKind(s: string): string {
    Collapse(Lower(Trim(s)))
  }

  function Recognize(s: string): Kind {
    if s == "schema" then Schema
    else if s == "presence" then Presence
    else if s == "artifact_schema" then ArtifactSchema
    else if s == "completeness" then Completeness
    else if s == "source_fidelity" then SourceFidelity
    else if s == "deterministic" then Deterministic
    else if s == "model_assisted" then ModelAssisted
    else if s == "model_graded" then ModelGraded
    else if s == "visual" then Visual
    else if s == "browser" then Browser
    else if s == "human_review" then HumanReview
    else Other(s)
  }

  function KindText(k: Kind): string {
    match k
    case Schema => "schema"
    case Presence => "presence"
    case ArtifactSchema => "artifact_schema"
    case Completeness => "completeness"
    case SourceFidelity => "source_fidelity"
    case Deterministic => "deterministic"
    case ModelAssisted => "model_assisted"
    case ModelGraded => "model_graded"
    case Visual => "visual"
    case Browser => "browser"
    case HumanReview => "human_review"
    case Other(text) => text
  }

  function KindOf(s: string): Kind {
    Recognize(NormalizeKind(s))
  }

  /** `isUnsupportedEvalKind`: kinds that are routed away from the deterministic runner. */
  predicate Routed(k: Kind) {
    k.ModelAssisted? || k.ModelGraded? || k.Visual? || k.Browser? || k.HumanReview?
  }

  /** `isModelAssistedKind` */
  predicate IsModelKind(k: Kind) {
    k.ModelAssisted? || k.ModelGraded?
  }

  /** The check kinds for which the runner has an evaluator. */
  predicate Supported(k: Kind) {
    k.Schema? || k.Presence? || k.ArtifactSchema? || k.Completeness? || k.SourceFidelity?
  }

  /** `KNOWN_CHECK_KINDS` */
  predicate KnownCheckKind(k: Kind) {
    !k.Deterministic? && !k.Other?
  }

  // ------------------------------------------------------- normalizing is stable

  predicate Lowered(s: string) {
    forall i :: 0 <= i < |s| ==> LowerChar(s[i]) == s[i]
  }

  predicate Unseparated(s: string) {
    forall i :: 0 <= i < |s| ==> !IsSeparator(s[i])
  }

  lemma {:induction false} CollapsedChars(s: string)
    requires Lowered(s)
    ensures Lowered(Collapse(s)) && Unseparated(Collapse(s))
    decreases |s|
  {
    if s != "" {
      if IsSeparator(s[0]) {
        var rest := DropSeparators(s[1..]);
        assert forall i :: 0 <= i < |rest| ==> rest[i] == s[|s| - |rest| + i];
        CollapsedChars(rest);
      } else {
        CollapsedChars(s[1..]);
      }
    }
  }

  lemma {:induction false} CollapsedEnds(s: string)
    requires s != "" && !IsSpace(s[0]) && !IsSpace(s[|s| - 1])
    ensures Collapse(s) != "" && !IsSpace(Collapse(s)[0])
  {
  }

  /** What `Collapse` reads after the first character. */
  function AfterFirst(s: string): (rest: string)
    requires s != ""
    ensures |rest| < |s|
  {
    if IsSeparator(s[0]) then DropSeparators(s[1..]) else s[1..]
  }

  lemma CollapseFirst(s: string)
    requires s != ""
    ensures Collapse(s) == (if IsSeparator(s[0]) then "_" else [s[0]]) + Collapse(AfterFirst(s))
  {
  }

  lemma SameLast(first: string, rest: string)
    requires rest != ""
    ensures (first + rest)[|first + rest| - 1] == rest[|rest| - 1]
  {
  }

  lemma LastOfRest(s: string)
    requires s != "" && AfterFirst(s) != ""
    ensures AfterFirst(s)[|AfterFirst(s)| - 1] == s[|s| - 1]
  {
  }

  lemma {:induction false} CollapsedLast(s: string)
    requires s != "" && !IsSpace(s[|s| - 1])
    ensures Collapse(s) != "" && !IsSpace(Collapse(s)[|Collapse(s)| - 1])
    decreases |s|
  {
    var rest := AfterFirst(s);
    CollapseFirst(s);
    if rest != "" {
      LastOfRest(s);
      CollapsedLast(rest);
      SameLast(if IsSeparator(s[0]) then "_" else [s[0]], Collapse(rest));
    } else {
      var first := if IsSeparator(s[0]) then "_" else [s[0]];
      assert Collapse(s) == first + "" == first;
    }
  }

  lemma {:induction false} CollapseIsFixed(s: string)
    requires Unseparated(s)
    ensures Collapse(s) == s
  {
    if s != "" {
      CollapseIsFixed(s[1..]);
    }
  }

  lemma CollapsedIsTrimmed(s: string)
    requires s != "" ==> !IsSpace(s[0]) && !IsSpace(s[|s| - 1])
    ensures Trimmed(Collapse(s))
  {
    if s != "" {
      CollapsedEnds(s);
      CollapsedLast(s);
    }
  }

  lemma LowerKeepsEnds(t: string)
    requires Trimmed(t)
    ensures Lower(t) != "" ==> !IsSpace(Lower(t)[0]) && !IsSpace(Lower(t)[|t| - 1])
  {
    if t != "" {
      assert Lower(t)[0] == LowerChar(t[0]) && Lower(t)[|t| - 1] == LowerChar(t[|t| - 1]);
    }
  }

  /** A text that is trimmed, lower-case and without separators is its own normal form. */
  lemma NormalIsFixed(n: string)
    requires Trimmed(n) && Lowered(n) && Unseparated(n)
    ensures NormalizeKind(n) == n
  {
    TrimmedIsFixed(n);
    assert Lower(n) == n;
    CollapseIsFixed(n);
  }

  /** A kind name that was normalized stays as it is, so a fallback kind may be normalized again. */
  lemma NormalizeKindTwice(s: string)
    ensures NormalizeKind(NormalizeKind(s)) == NormalizeKind(s)
  {
    var t := Trim(s);
    TrimIs(s);
    LowerKeepsEnds(t);
    CollapsedIsTrimmed(Lower(t));
    CollapsedChars(Lower(t));
    NormalIsFixed(Collapse(Lower(t)));
  }
}
