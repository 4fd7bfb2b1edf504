/** Verdicts recompute to their decision hash, and the hash binds what it covers. */
module DecisionHashProofs {
  import opened Wrappers
  import opened JsText
  import opened Json
  import opened CanonicalText
  import opened Hashing
  import opened DecisionHash
  import opened VerdictTerms

  // --------------------------------------------------------------------- codec

  lemma DigestHasNoEquals(d: string)
    requires IsDigest(d)
    ensures '=' !in d
  {
    assert d == "sha256:" + d[7..];
  }

  lemma KeyRecognized(k: HashKey)
    ensures Recognize(KeyText(k)) == Some(k) && '=' !in KeyText(k)
  {
    assert |KeyText(TargetContent)| == |PREFIX| + 18 && |KeyText(EvidenceSnapshot)| == |PREFIX| + 21;
    assert |KeyText(Definition)| == |PREFIX| + 15 && |KeyText(CheckResults)| == |PREFIX| + 17;
  }

  /** An encoded id is read back as its key and its digest. */
  lemma EncodedIdReads(k: HashKey, digest: string, acc: PartialHashes)
    requires IsDigest(digest)
    ensures ReadId(EncodeId(k, digest), acc) == Ok(Store(acc, k, digest))
  {
    KeyRecognized(k);
    DigestHasNoEquals(digest);
    SplitOfSegment(KeyText(k), digest, '=');
    SplitWithout(digest, '=');
    assert KeyText(k) + "=" + digest == KeyText(k) + ['='] + digest;
    assert Split(EncodeId(k, digest), '=') == [KeyText(k)] + [digest];
  }

  lemma ReadIdsCons(id: string, ids: seq<string>, acc: PartialHashes)
    ensures ReadIds([id] + ids, acc)
         == if ReadId(id, acc).Ok? then ReadIds(ids, ReadId(id, acc).value) else Err(ReadId(id, acc).error)
  {
    assert ([id] + ids)[1..] == ids;
  }

  lemma {:induction false} ReadIdsAppend(xs: seq<string>, ys: seq<string>, acc: PartialHashes)
    ensures ReadIds(xs + ys, acc)
         == if ReadIds(xs, acc).Ok? then ReadIds(ys, ReadIds(xs, acc).value) else ReadIds(xs, acc)
  {
    if xs == [] {
      assert xs + ys == ys;
    } else {
      assert (xs + ys)[1..] == xs[1..] + ys;
      var next := ReadId(xs[0], acc);
      if next.Ok? {
        ReadIdsAppend(xs[1..], ys, next.value);
      }
    }
  }

  lemma {:induction false} ReadUnrelated(ids: seq<string>, acc: PartialHashes)
    requires forall i :: 0 <= i < |ids| ==> !IsReserved(ids[i])
    ensures ReadIds(ids, acc) == Ok(acc)
  {
    if ids != [] {
      ReadUnrelated(ids[1..], acc);
    }
  }

  lemma ReadEncodedId(k: HashKey, digest: string, ids: seq<string>, acc: PartialHashes)
    requires IsDigest(digest)
    ensures ReadIds([EncodeId(k, digest)] + ids, acc) == ReadIds(ids, Store(acc, k, digest))
  {
    EncodedIdReads(k, digest, acc);
    ReadIdsCons(EncodeId(k, digest), ids, acc);
  }

  function Full(h: InputHashes): PartialHashes {
    PartialHashes(Some(h.targetContent), Some(h.evidenceSnapshot), Some(h.definition), Some(h.checkResults))
  }

  lemma ReadEncoded(h: InputHashes, acc: PartialHashes)
    requires AllDigests(h)
    ensures ReadIds(EncodeIds(h), acc) == Ok(Full(h))
  {
    var a := EncodeId(TargetContent, h.targetContent);
    var b := EncodeId(EvidenceSnapshot, h.evidenceSnapshot);
    var c := EncodeId(Definition, h.definition);
    var d := EncodeId(CheckResults, h.checkResults);
    var a1 := Store(acc, TargetContent, h.targetContent);
    var a2 := Store(a1, EvidenceSnapshot, h.evidenceSnapshot);
    var a3 := Store(a2, Definition, h.definition);
    calc {
      ReadIds([a, b, c, d], acc);
      { assert [a, b, c, d] == [a] + [b, c, d]; ReadEncodedId(TargetContent, h.targetContent, [b, c, d], acc); }
      ReadIds([b, c, d], a1);
      { assert [b, c, d] == [b] + [c, d]; ReadEncodedId(EvidenceSnapshot, h.evidenceSnapshot, [c, d], a1); }
      ReadIds([c, d], a2);
      { assert [c, d] == [c] + [d]; ReadEncodedId(Definition, h.definition, [d], a2); }
      ReadIds([d], a3);
      { assert [d] == [d] + []; ReadEncodedId(CheckResults, h.checkResults, [], a3); }
      ReadIds([], Store(a3, CheckResults, h.checkResults));
      Ok(Full(h));
    }
  }

  /**
   The four hashes come back from among other ids: whatever readable ids stand before
   them, even stale hashes under the same keys, and any unrelated ids after them.
   */
  lemma CodecRoundTrip(before: seq<string>, h: InputHashes, after: seq<string>)
    requires AllDigests(h)
    requires forall i :: 0 <= i < |after| ==> !IsReserved(after[i])
    ensures DecodeIds(before + EncodeIds(h) + after) == Ok(h) <==> ReadIds(before, NO_HASHES).Ok?
  {
    ReadIdsAppend(before + EncodeIds(h), after, NO_HASHES);
    ReadIdsAppend(before, EncodeIds(h), NO_HASHES);
    if ReadIds(before, NO_HASHES).Ok? {
      ReadEncoded(h, ReadIds(before, NO_HASHES).value);
      ReadUnrelated(after, Full(h));
      FullIsPresent(h);
    }
  }

  lemma FullIsPresent(h: InputHashes)
    requires AllDigests(h)
    ensures AllPresent(Full(h)) == Ok(h)
  {
  }

  lemma EncodedDecodes(h: InputHashes)
    requires AllDigests(h)
    ensures DecodeIds(EncodeIds(h)) == Ok(h)
  {
    ReadEncoded(h, NO_HASHES);
    FullIsPresent(h);
  }

  // ---------------------------------------------------------------- recomputation

  lemma HashesAreDigests(sha: Sha, c: DecisionContext)
    requires HexOutput(sha)
    ensures HashResolvedInputs(sha, c).Some? ==> AllDigests(HashResolvedInputs(sha, c).value)
  {
    DigestIsDigest(sha, StableText(OrAbsent(c.targetContent, "targetContent")));
    DigestIsDigest(sha, StableText(OrAbsent(c.evidenceSnapshot, "evidenceSnapshot")));
    DigestIsDigest(sha, StableText(OrAbsent(c.definition, "definition")));
    DigestIsDigest(sha, StableText(CheckResultsJson(c.checkResults)));
  }

  lemma PlaceholdersAreDigests(sha: Sha, reason: string)
    requires HexOutput(sha)
    ensures AllDigests(UnresolvedInputHashes(sha, reason))
  {
    DigestIsDigest(sha, StableText(UnresolvedSentinel("targetContent", reason)));
    DigestIsDigest(sha, StableText(UnresolvedSentinel("evidenceSnapshot", reason)));
    DigestIsDigest(sha, StableText(UnresolvedSentinel("definition", reason)));
    DigestIsDigest(sha, StableText(UnresolvedSentinel("checkResults", reason)));
  }

  lemma BoundRecomputes(sha: Sha, v: Verdict, h: InputHashes, input: VerdictInput)
    requires HexOutput(sha) && AllDigests(h)
    ensures InputHashesFromVerdict(Bind(sha, v, h, input)) == Ok(h)
    ensures Recompute(sha, Bind(sha, v, h, input), None) == Ok(Digest(sha, DecisionText(v, h)))
  {
    var bound := Bind(sha, v, h, input);
    ReadsBack(bound, h);
    SameFieldsSameText(v, bound, h);
    DigestIsDigest(sha, DecisionText(v, h));
    RecomputesFrom(sha, bound, h);
  }

  lemma ReadsBack(v: Verdict, h: InputHashes)
    requires AllDigests(h) && v.provenance.Some? && v.provenance.value.causationIds == Some(EncodeIds(h))
    ensures InputHashesFromVerdict(v) == Ok(h)
  {
    EncodedDecodes(h);
  }

  lemma RecomputesFrom(sha: Sha, v: Verdict, h: InputHashes)
    requires InputHashesFromVerdict(v) == Ok(h) && v.provenance.Some?
    requires v.provenance.value.decisionHash == Some(Digest(sha, DecisionText(v, h)))
    requires IsDigest(Digest(sha, DecisionText(v, h)))
    ensures Recompute(sha, v, None) == Ok(Digest(sha, DecisionText(v, h)))
  {
  }

  lemma SameFieldsSameText(v: Verdict, w: Verdict, h: InputHashes)
    requires SameBound(v, h, w, h)
    ensures DecisionText(v, h) == DecisionText(w, h)
  {
  }

  /** Every built verdict, normal or fail-closed, recomputes from its own causation ids. */
  lemma BuiltVerdictRecomputes(sha: Sha, input: VerdictInput, reason: string)
    requires HexOutput(sha)
    ensures var v := BuildVerdict(sha, input, reason);
      && v.provenance.Some? && v.provenance.value.decisionHash.Some?
      && Recompute(sha, v, None) == Ok(v.provenance.value.decisionHash.value)
  {
    var producedBy := input.producedBy.GetOr(ProducedBy("deterministic", input.evaluatorRef));
    HashesAreDigests(sha, input.context);
    PlaceholdersAreDigests(sha, reason);
    match HashResolvedInputs(sha, input.context)
    case Some(h) =>
      BoundRecomputes(sha, Verdict(input.evalId, input.targetRef, input.status, input.severity,
                                   input.findings, Unique(input.evidenceRefs), producedBy, None), h, input);
    case None =>
      BoundRecomputes(sha, Verdict(input.evalId, input.targetRef, Fail, Blocking,
                                   [Finding(FAIL_CLOSED_CODE, reason)], [], producedBy, None),
                      UnresolvedInputHashes(sha, reason), input);
  }

  // ---------------------------------------------------------------------- binding

  /** Everything a decision hash covers. */
  predicate SameBound(v: Verdict, h: InputHashes, w: Verdict, k: InputHashes) {
    && v.evalId == w.evalId && v.targetRef == w.targetRef && v.status == w.status
    && v.severity == w.severity && v.producedBy.ref == w.producedBy.ref && h == k
  }

  lemma TextFieldsCanonical(fields: seq<Field>)
    requires DistinctKeys(fields) && forall i :: 0 <= i < |fields| ==> fields[i].value.JStr?
    ensures Canonical(JObj(fields))
  {
  }

  /** Objects of strings under the same distinct keys mean the same only if they are the same. */
  lemma SameKeysSameStrings(fs: seq<Field>, gs: seq<Field>)
    requires DistinctKeys(fs) && |fs| == |gs|
    requires forall i :: 0 <= i < |fs| ==> fs[i].key == gs[i].key && fs[i].value.JStr? && gs[i].value.JStr?
    requires DenoteFields(fs) == DenoteFields(gs)
    ensures fs == gs
  {
    SameKeysSameFields(fs, gs);
  }

  lemma DecisionFields(v: Verdict, h: InputHashes)
    ensures var fields := DecisionJson(v.evalId, v.targetRef, v.status, v.severity, v.producedBy.ref, h).fields;
      && |fields| == 9 && DistinctKeys(fields)
      && (forall i :: 0 <= i < 9 ==> fields[i].value.JStr? && fields[i].key == DECISION_KEYS[i])
      && Canonical(JObj(fields))
  {
    var fields := DecisionJson(v.evalId, v.targetRef, v.status, v.severity, v.producedBy.ref, h).fields;
    assert DistinctKeys(fields) by {
      forall i, j | 0 <= i < j < 9
        ensures DECISION_KEYS[i] != DECISION_KEYS[j]
      {
        assert |DECISION_KEYS[i]| != |DECISION_KEYS[j]| || DECISION_KEYS[i][1] != DECISION_KEYS[j][1];
      }
    }
    TextFieldsCanonical(fields);
  }

  const DECISION_KEYS := ["evalId", "targetRef", "status", "severity", "producedByRef",
    "targetContentHash", "evidenceSnapshotHash", "definitionHash", "checkResultsHash"]

  /** Decision texts are equal exactly when all the bound fields are. */
  lemma DecisionTextBinds(v: Verdict, h: InputHashes, w: Verdict, k: InputHashes)
    ensures DecisionText(v, h) == DecisionText(w, k) <==> SameBound(v, h, w, k)
  {
    if DecisionText(v, h) == DecisionText(w, k) {
      var a := DecisionJson(v.evalId, v.targetRef, v.status, v.severity, v.producedBy.ref, h);
      var b := DecisionJson(w.evalId, w.targetRef, w.status, w.severity, w.producedBy.ref, k);
      assert a.fields == b.fields by {
        DecisionFields(v, h);
        DecisionFields(w, k);
        StableTextIffMeaning(a, b);
        SameKeysSameStrings(a.fields, b.fields);
      }
      SameDecisionFields(v, h, w, k);
    }
  }

  lemma SameDecisionFields(v: Verdict, h: InputHashes, w: Verdict, k: InputHashes)
    requires DecisionJson(v.evalId, v.targetRef, v.status, v.severity, v.producedBy.ref, h).fields
          == DecisionJson(w.evalId, w.targetRef, w.status, w.severity, w.producedBy.ref, k).fields
    ensures SameBound(v, h, w, k)
  {
    var fs := DecisionJson(v.evalId, v.targetRef, v.status, v.severity, v.producedBy.ref, h).fields;
    var gs := DecisionJson(w.evalId, w.targetRef, w.status, w.severity, w.producedBy.ref, k).fields;
    assert fs[0] == gs[0] && fs[1] == gs[1] && fs[2] == gs[2] && fs[3] == gs[3] && fs[4] == gs[4];
    assert fs[5] == gs[5] && fs[6] == gs[6] && fs[7] == gs[7] && fs[8] == gs[8];
    StatusTextInjective(v.status, w.status);
    SeverityTextInjective(v.severity, w.severity);
  }

  lemma StatusTextInjective(s: Status, t: Status)
    requires StatusText(s) == StatusText(t)
    ensures s == t
  {
    assert |StatusText(s)| == |StatusText(t)|;
    assert StatusText(s)[0] == StatusText(t)[0];
  }

  /**
   Two verdicts that both recompute to one decision hash agree on every bound field
   and on all four input hashes, unless SHA-256 collides on their decision texts.
   */
  lemma DecisionHashBinds(sha: Sha, v: Verdict, w: Verdict, given: Option<InputHashes>, given': Option<InputHashes>)
    requires Recompute(sha, v, given).Ok? && Recompute(sha, w, given').Ok?
    requires v.provenance.value.decisionHash == w.provenance.value.decisionHash
    ensures var h, k := UsedHashes(v, given), UsedHashes(w, given');
      SameBound(v, h, w, k) || Collision(sha, DecisionText(v, h), DecisionText(w, k))
  {
    var h, k := UsedHashes(v, given), UsedHashes(w, given');
    assert Digest(sha, DecisionText(v, h)) == Digest(sha, DecisionText(w, k));
    SameDigest(sha, DecisionText(v, h), DecisionText(w, k));
    DecisionTextBinds(v, h, w, k);
  }

  /** The hashes a recomputation uses: the given ones, or those in the verdict. */
  function UsedHashes(v: Verdict, given: Option<InputHashes>): InputHashes
    requires given.Some? || InputHashesFromVerdict(v).Ok?
  {
    if given.Some? then given.value else InputHashesFromVerdict(v).value
  }

  /**
   Changing a bound field of a verdict that recomputes, and nothing else, makes its
   recomputation throw, unless SHA-256 collides on the two decision texts.
   */
  lemma AlteredVerdictIsRejected(sha: Sha, v: Verdict, w: Verdict)
    requires Recompute(sha, v, None).Ok? && w.provenance == v.provenance
    ensures var h := InputHashesFromVerdict(v).value;
      || Recompute(sha, w, None) == Err(DecisionHashMismatch)
      || SameBound(v, h, w, h)
      || Collision(sha, DecisionText(v, h), DecisionText(w, h))
  {
    if Recompute(sha, w, None).Ok? {
      DecisionHashBinds(sha, v, w, None, None);
    }
  }

  /** A built verdict is what it was to be, or a blocking failure because its inputs could not be hashed. */
  lemma BuiltStatus(sha: Sha, input: VerdictInput, reason: string)
    ensures var v := BuildVerdict(sha, input, reason);
      (v.status == input.status && v.severity == input.severity) || (v.status == Fail && v.severity == Blocking)
  {
  }
}
