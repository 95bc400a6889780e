/**
 The positional n-gram matcher. Every hit of the first term is a candidate
 start `base`; the candidate is reported, as its own context and metadata,
 when for each later term `k` some record with id `base + k` satisfies that
 term. One failing offset discards the candidate.
 */
module Phrase {
  import opened Query
  import opened Corpus

  /** The point lookup: some record has id `id` and satisfies `t`. */
  predicate HasAt(store: Store, id: int, t: Term) {
    exists i :: 0 <= i < |store| && store[i].id == id && Satisfies(store[i], t)
  }

  /** Every term after the first is found at its offset from `base`. */
  predicate OffsetsMatch(store: Store, terms: seq<Term>, base: int) {
    forall k :: 1 <= k < |terms| ==> HasAt(store, base + k, terms[k])
  }

  /** The candidates that pass every offset check, as spans, in candidate
      order. */
  function Emit(store: Store, terms: seq<Term>, cands: seq<Hit>): (spans: seq<Span>)
    ensures |spans| <= |cands|
  {
    if |cands| == 0 then []
    else
      (if OffsetsMatch(store, terms, cands[0].id) then [SpanOf(cands[0])] else [])
      + Emit(store, terms, cands[1..])
  }

  /** The n-gram matcher over a non-empty list of terms. */
  function NGram(store: Store, terms: seq<Term>): (spans: seq<Span>)
    requires |terms| >= 1
    ensures |spans| <= |Unigram(store, terms[0])|
  {
    Emit(store, terms, Unigram(store, terms[0]))
  }

  /** The point lookup as a scan of the store. */
  method LookupAt(store: Store, id: int, t: Term) returns (found: bool)
    ensures found <==> HasAt(store, id, t)
  {
    var i := 0;
    while i < |store|
      invariant 0 <= i <= |store|
      invariant forall j :: 0 <= j < i ==> !(store[j].id == id && Satisfies(store[j], t))
    {
      if store[i].id == id && Satisfies(store[i], t) {
        return true;
      }
      i := i + 1;
    }
    return false;
  }

  /** The offset checks for one candidate, in order, leaving at the first
      offset whose lookup fails. */
  method CheckOffsets(store: Store, terms: seq<Term>, base: int) returns (complete: bool)
    requires |terms| >= 1
    ensures complete <==> OffsetsMatch(store, terms, base)
  {
    var k := 1;
    while k < |terms|
      invariant 1 <= k <= |terms|
      invariant forall m :: 1 <= m < k ==> HasAt(store, base + m, terms[m])
    {
      var found := LookupAt(store, base + k, terms[k]);
      if !found {
        return false;
      }
      k := k + 1;
    }
    return true;
  }

  /** The matcher as the request handler runs it: for each candidate, run the offset
      checks and append the candidate's span only when none failed. */
  method MatchNGram(store: Store, terms: seq<Term>) returns (spans: seq<Span>)
    requires |terms| >= 1
    ensures spans == NGram(store, terms)
  {
    var cands := Unigram(store, terms[0]);
    spans := [];
    var j := 0;
    while j < |cands|
      invariant 0 <= j <= |cands|
      invariant spans == Emit(store, terms, cands[..j])
    {
      var complete := CheckOffsets(store, terms, cands[j].id);
      EmitAppend(store, terms, cands[..j], [cands[j]]);
      assert cands[..j + 1] == cands[..j] + [cands[j]];
      if complete {
        spans := spans + [SpanOf(cands[j])];
      }
      j := j + 1;
    }
    assert cands[..j] == cands;
  }

  /** Order: the spans of two runs of candidates are those of the first run
      followed by those of the second. */
  lemma {:induction false} EmitAppend(store: Store, terms: seq<Term>, a: seq<Hit>, b: seq<Hit>)
    ensures Emit(store, terms, a + b) == Emit(store, terms, a) + Emit(store, terms, b)
    decreases |a|
  {
    if |a| == 0 {
      assert a + b == b;
    } else {
      var head := if OffsetsMatch(store, terms, a[0].id) then [SpanOf(a[0])] else [];
      var ab := a + b;
      assert ab[0] == a[0] && ab[1..] == a[1..] + b;
      EmitAppend(store, terms, a[1..], b);
      calc {
        Emit(store, terms, ab);
        head + Emit(store, terms, a[1..] + b);
        head + (Emit(store, terms, a[1..]) + Emit(store, terms, b));
        (head + Emit(store, terms, a[1..])) + Emit(store, terms, b);
        Emit(store, terms, a) + Emit(store, terms, b);
      }
    }
  }

  /** A span is emitted exactly when some candidate passing every offset
      check carries it. */
  lemma {:induction false} EmitMembers(store: Store, terms: seq<Term>, cands: seq<Hit>, s: Span)
    ensures s in Emit(store, terms, cands) <==>
              exists j :: 0 <= j < |cands| && OffsetsMatch(store, terms, cands[j].id) && s == SpanOf(cands[j])
    decreases |cands|
  {
    if |cands| > 0 {
      EmitMembers(store, terms, cands[1..], s);
      assert forall j :: 1 <= j < |cands| ==> cands[1..][j - 1] == cands[j];
      if exists j :: 0 <= j < |cands| && OffsetsMatch(store, terms, cands[j].id) && s == SpanOf(cands[j]) {
        var j :| 0 <= j < |cands| && OffsetsMatch(store, terms, cands[j].id) && s == SpanOf(cands[j]);
        if j > 0 {
          assert cands[1..][j - 1] == cands[j];
        }
      }
    }
  }

  /** Every reported span is that of a record satisfying the first term
      whose offsets all match. */
  lemma NGramSound(store: Store, terms: seq<Term>, s: Span)
    requires |terms| >= 1 && s in NGram(store, terms)
    ensures exists i :: 0 <= i < |store| && Satisfies(store[i], terms[0])
              && OffsetsMatch(store, terms, store[i].id) && s == SpanOf(HitOf(store[i]))
  {
    var cands := Unigram(store, terms[0]);
    EmitMembers(store, terms, cands, s);
    var j :| 0 <= j < |cands| && OffsetsMatch(store, terms, cands[j].id) && s == SpanOf(cands[j]);
    var h := cands[j];
    UnigramSound(store, terms[0], h);
    var i :| 0 <= i < |store| && Satisfies(store[i], terms[0]) && h == HitOf(store[i]);
    assert store[i].id == h.id;
  }

  /** Every record satisfying the first term whose offsets all match has
      its span reported. */
  lemma NGramComplete(store: Store, terms: seq<Term>, i: int)
    requires |terms| >= 1 && 0 <= i < |store|
    requires Satisfies(store[i], terms[0]) && OffsetsMatch(store, terms, store[i].id)
    ensures SpanOf(HitOf(store[i])) in NGram(store, terms)
  {
    var cands := Unigram(store, terms[0]);
    var h := HitOf(store[i]);
    UnigramComplete(store, terms[0], i);
    var j :| 0 <= j < |cands| && cands[j] == h;
    assert OffsetsMatch(store, terms, cands[j].id);
    EmitMembers(store, terms, cands, SpanOf(h));
  }

  /** The n-gram characterisation: a span is reported exactly when some
      record satisfies the first term and, for every later term `k`, a
      record with id `base + k` satisfies term `k`. */
  lemma NGramMembers(store: Store, terms: seq<Term>, s: Span)
    requires |terms| >= 1
    ensures s in NGram(store, terms) <==>
              exists i :: 0 <= i < |store| && Satisfies(store[i], terms[0])
                && OffsetsMatch(store, terms, store[i].id) && s == SpanOf(HitOf(store[i]))
  {
    if s in NGram(store, terms) {
      NGramSound(store, terms, s);
    }
    if exists i :: 0 <= i < |store| && Satisfies(store[i], terms[0])
         && OffsetsMatch(store, terms, store[i].id) && s == SpanOf(HitOf(store[i])) {
      var i :| 0 <= i < |store| && Satisfies(store[i], terms[0])
                 && OffsetsMatch(store, terms, store[i].id) && s == SpanOf(HitOf(store[i]));
      NGramComplete(store, terms, i);
    }
  }

  /** No partial matches: when ids are keys, a record at offset `k` that
      fails term `k` discards the candidate starting at `base`. */
  lemma OneFailingOffsetDiscards(store: Store, terms: seq<Term>, base: int, k: int, i: int)
    requires UniqueIds(store)
    requires 1 <= k < |terms| && 0 <= i < |store|
    requires store[i].id == base + k && !Satisfies(store[i], terms[k])
    ensures !OffsetsMatch(store, terms, base)
  {
  }

  /** Each hit's context and metadata, in order. */
  function Project(hits: seq<Hit>): (spans: seq<Span>)
    ensures |spans| == |hits|
    ensures forall j :: 0 <= j < |hits| ==> spans[j] == Span(hits[j].context, hits[j].metadata)
  {
    seq(|hits|, j requires 0 <= j < |hits| => SpanOf(hits[j]))
  }

  /** With one term there is no offset to check, so every candidate passes. */
  lemma {:induction false} EmitWithoutOffsets(store: Store, terms: seq<Term>, cands: seq<Hit>)
    requires |terms| == 1
    ensures Emit(store, terms, cands) == Project(cands)
    decreases |cands|
  {
    if |cands| > 0 {
      assert OffsetsMatch(store, terms, cands[0].id);
      EmitWithoutOffsets(store, terms, cands[1..]);
    }
  }

  /** On a single term the n-gram matcher is the unigram lookup projected to
      context and metadata. */
  lemma NGramSingleTerm(store: Store, t: Term)
    ensures NGram(store, [t]) == Project(Unigram(store, t))
  {
    EmitWithoutOffsets(store, [t], Unigram(store, t));
  }
}
