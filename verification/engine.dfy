/**
 The request handler's dispatch on the number of parsed terms: a rejected
 query is reported as invalid, no terms as zero matches, one term through the
 unigram lookup projected to context and metadata, several through the n-gram
 matcher.
 */
module Engine {
  import opened Text
  import opened Query
  import opened Corpus
  import opened Phrase

  datatype Outcome = Invalid | NoTerms | Matched(spans: seq<Span>)

  /** Answers a raw query against the store. */
  function Run(store: Store, query: string, lemmatize: string -> string): (o: Outcome)
    ensures o.Invalid? <==> Parse(query, lemmatize).Failed?
    ensures o.NoTerms? <==> Parse(query, lemmatize) == Terms([])
    ensures o.Matched? ==> |o.spans| <= |store|
  {
    match Parse(query, lemmatize)
    case Failed(_) => Invalid
    case Terms(ts) =>
      if |ts| == 1 then Matched(Project(Unigram(store, ts[0])))
      else if |ts| > 1 then Matched(NGram(store, ts))
      else NoTerms
  }

  /** The number of matches the page reports. */
  function MatchCount(o: Outcome): (n: nat)
    requires !o.Invalid?
    ensures o.NoTerms? ==> n == 0
    ensures o.Matched? ==> n == |o.spans|
  {
    match o
    case NoTerms => 0
    case Matched(spans) => |spans|
  }

  /** An empty or all-white-space query has no terms and reports zero
      matches; any other query that parses has at least one term. */
  lemma BlankQuery(store: Store, query: string, lemmatize: string -> string)
    ensures Run(store, query, lemmatize).NoTerms? <==> AllSpace(query)
    ensures AllSpace(query) ==> MatchCount(Run(store, query, lemmatize)) == 0
  {
    SplitEmptyIffBlank(query);
  }

  /** A query is rejected exactly when one of its words, lower-cased, is
      not a label, not quoted and not a bare token. */
  lemma InvalidIffUnrecognisedWord(store: Store, query: string, lemmatize: string -> string)
    ensures Run(store, query, lemmatize).Invalid? <==>
              exists i :: 0 <= i < |Split(query)| && !Recognised(Lower(Split(query)[i]))
  {
  }

  /** Dispatch consistency: whenever there is at least one term, the answer
      is the n-gram matcher's, since on one term it agrees with the
      projected unigram lookup. */
  lemma DispatchAgreesWithNGram(store: Store, query: string, lemmatize: string -> string)
    requires Parse(query, lemmatize).Terms? && |Parse(query, lemmatize).terms| >= 1
    ensures Run(store, query, lemmatize) == Matched(NGram(store, Parse(query, lemmatize).terms))
  {
    var ts := Parse(query, lemmatize).terms;
    if |ts| == 1 {
      assert ts == [ts[0]];
      NGramSingleTerm(store, ts[0]);
    }
  }

  /** The page's `if results:` decision: a query with at least one term
      reports matches exactly when some record satisfies the first term and
      every later term is found at its offset from that record's id. */
  lemma ReportsMatches(store: Store, query: string, lemmatize: string -> string)
    requires Parse(query, lemmatize).Terms? && |Parse(query, lemmatize).terms| >= 1
    ensures MatchCount(Run(store, query, lemmatize)) > 0 <==>
              exists i :: 0 <= i < |store| && Satisfies(store[i], Parse(query, lemmatize).terms[0])
                && OffsetsMatch(store, Parse(query, lemmatize).terms, store[i].id)
  {
    var ts := Parse(query, lemmatize).terms;
    var spans := NGram(store, ts);
    DispatchAgreesWithNGram(store, query, lemmatize);
    assert MatchCount(Run(store, query, lemmatize)) == |spans|;
    if |spans| > 0 {
      NGramSound(store, ts, spans[0]);
    }
    if exists i :: 0 <= i < |store| && Satisfies(store[i], ts[0]) && OffsetsMatch(store, ts, store[i].id) {
      var i :| 0 <= i < |store| && Satisfies(store[i], ts[0]) && OffsetsMatch(store, ts, store[i].id);
      NGramComplete(store, ts, i);
    }
  }
}
