# Phrase queries over a tagged Instagram corpus — a Dafny model

The web application answers queries over a corpus in which every word
occurrence carries its surface form, its lemma and its part-of-speech tag.
A query is a run of white-space separated words. Each word is lower-cased
and read as one of three things, in this order of precedence:

- one of fifteen part-of-speech labels (`noun`, `adj`, `verb`, …);
- a word form quoted with `"…"` or `'…'`;
- a bare word of Cyrillic `а-я`, Latin `a-z` and digits, which the morphological
  analyser reduces to its lemma.

Any other word rejects the whole query. A one-word query returns the context
and metadata of every matching word. A longer query returns the context and
metadata of every first-word match `base` for which, at each later position
`k`, some word with id `base + k` matches the `k`-th term.

The model is split into modules that follow the code's structure:

- `Text` (`text.dfy`): Python's argument-less `str.split()` and `str.lower()`.
- `Query` (`query.dfy`): the classifier `get_request_type`.
- `Corpus` (`corpus.dfy`): the joined word/context rows as an immutable
  `seq<Record>`, quote stripping, column selection and the unigram lookup.
- `Phrase` (`phrase.dfy`): the n-gram matcher. It has a pure reference
  definition (`NGram`) and a loop implementation (`MatchNGram`) that mirrors
  the source's `for … else`. Each point lookup (`LookupAt`) and each candidate's offset loop (`CheckOffsets`) is its own method; the first-term lookup is the function `Unigram`.
- `Engine` (`engine.dfy`): the term-count dispatch of the request handler.
- `Scenarios` (`scenarios.dfy`): worked queries over a two-word store.

The morphological analyser is a parameter `lemmatize: string -> string` about
which nothing is assumed. The record store is a parameter too. Every operation
is a pure function of the query, the store and the analyser, so running the
same query twice against the same store gives the same ordered answer.

The code keeps the quotes on a quoted term when it parses it (app.py:44-45).
It removes the first and last character only when the term is matched
(app.py:59-62, 82-85). The model does the same. A lone `"` is therefore a quoted
term whose match value is the empty string. The same stripping also applies to
a lemma the analyser returns wrapped in quotes.

## Model

| member | source | states |
|---|---|---|
| Text.IsSpace | app.py:33 | the characters `str.split()` separates on: those `str.isspace()` accepts |
| Text.Split | app.py:33 | every word `split()` returns is non-empty and free of white space |
| Text.SplitKeepsNonSpace | app.py:33 | the words, put end to end, are exactly the query's non-white-space characters in order |
| Text.SplitEmptyIffBlank | app.py:33 | a query yields no words if and only if it is empty or all white space |
| Text.SplitAtSpace | app.py:33 | any single white-space character separates: the words of `x c y` are those of `x` followed by those of `y`, so runs of white space and white space at either end yield no empty words |
| Text.SplitJoin | app.py:33 | round trip: splitting words joined by single spaces returns those words |
| Text.Lower | app.py:39 | lower-casing keeps the length, leaves no upper-case Latin or basic Cyrillic letter, changes nothing else, and sends each capital to the lower-case letter whose upper-case form it is |
| Text.LowerUnchanged | app.py:39 | a word with no upper-case letter is unchanged by lower-casing |
| Text.LowerIdempotent | app.py:39 | lower-casing an already lower-cased word changes nothing |
| Query.IsPosLabel | app.py:34-42 | a word is a label iff it equals one of the fifteen fixed labels |
| Query.IsQuoted | app.py:40-41 | non-empty, and first and last character both `"` or both `'` |
| Query.IsBareChar | app.py:46 | the character class `[а-яa-z0-9]`: U+0430-U+044F, Latin lower case, digits |
| Query.IsBareToken | app.py:46 | the whole word matches `^[а-яa-z0-9]+$`: non-empty, every character in the class |
| Query.ClassifyItem | app.py:42-49 | a word is accepted iff it is a label, quoted, or bare; its kind is the first of label, quoted, bare that it has; only a third-branch word's text comes from the lemmatizer, the others keep the lower-cased word, quotes included |
| Query.ParseWords | app.py:38-50 | the parse fails, with the fixed message, iff some lower-cased word has none of the three forms; otherwise one term per word in order, of the kind the precedence order dictates, carrying the word or its lemma |
| Query.Parse | app.py:31-50 | on a raw query: failure, with the fixed message, iff some split word is unrecognised; otherwise one term per split word in order, of the kind precedence dictates, carrying the lower-cased word or its lemma |
| Query.PosLabelsAreBare | app.py:34-46 | every label also matches the bare-token pattern, so precedence decides its kind |
| Query.QuotedIsNotLabel | app.py:34-45 | a quoted word is never a label |
| Query.PosPrecedence | app.py:34-43 | a word whose lower-cased form is a label becomes `Pos` of that form, although it is also a bare token |
| Query.LemmatizerOnlyForBareWords | app.py:46-47 | two analysers that agree on the third-branch words give identical parses, so no other word reaches the lemmatizer |
| Query.ParseWithoutBareWords | app.py:42-47 | a query with no third-branch word (labels and quoted words only) parses the same under every analyser |
| Corpus.DropEnds | app.py:62 | Python's `[1:-1]`: the first and last character removed, or empty when there are fewer than two |
| Corpus.StripQuotes | app.py:59-62 | a quoted item loses exactly its first and last character (a lone quote becomes empty); any other item is unchanged |
| Corpus.StripQuotesRoundTrip | app.py:59-62 | quoting a word with either quote character and stripping gives the word back |
| Corpus.Column | app.py:64-68 | the column a term is compared with: `POS` for a label, `token` for a quoted word, `lemma` for a lemma |
| Corpus.Satisfies | app.py:65-68 | a record matches a term iff the selected column equals the term's text with its quotes stripped |
| Corpus.Unigram | app.py:53-69 | there are never more hits than records |
| Corpus.UnigramSound | app.py:64-69 | every hit is the id, context and metadata of a record whose selected column equals the stripped item |
| Corpus.UnigramComplete | app.py:64-69 | every record whose selected column equals the stripped item yields a hit |
| Corpus.UnigramMembers | app.py:64-69 | a hit is returned iff some record satisfying the term has that id, context and metadata |
| Corpus.UnigramAppend | app.py:65-69 | hits follow store order: the hits of a concatenated store are the first part's hits followed by the second's |
| Corpus.UnigramSingle | app.py:64-68 | a single record yields its hit exactly when it satisfies the term |
| Phrase.HasAt | app.py:87-90 | the point lookup's condition: some record has the given id and matches the term |
| Phrase.OffsetsMatch | app.py:79-91 | the `for` loop runs to its end: for every `k` in `1..n-1` the lookup at `base+k` for term `k` finds a record |
| Phrase.LookupAt | app.py:87-90 | the point lookup succeeds iff some record has the given id and satisfies the term |
| Phrase.CheckOffsets | app.py:79-91 | the offset loop ends without breaking iff every later term is found at its offset from the base id |
| Phrase.MatchNGram | app.py:72-94 | the `for … else` loop over the first term's hits yields exactly the reference n-gram answer |
| Phrase.Emit | app.py:78-93 | never more spans than candidates |
| Phrase.NGram | app.py:76-94 | never more spans than hits of the first term |
| Phrase.EmitAppend | app.py:78-93 | spans follow candidate order, without re-sorting |
| Phrase.EmitMembers | app.py:78-93 | a span is emitted iff some candidate passing every offset check carries that context and metadata |
| Phrase.NGramSound | app.py:77-93 | every reported span is the context and metadata of a record satisfying the first term whose later offsets all match |
| Phrase.NGramComplete | app.py:77-93 | every record satisfying the first term whose later offsets all match has its span reported |
| Phrase.NGramMembers | app.py:77-93 | a span is reported iff some record satisfies the first term and, for every `k` in `1..n-1`, some record with id `base+k` satisfies term `k` |
| Phrase.OneFailingOffsetDiscards | app.py:87-91 | with unique ids, one record at an offset that fails its term discards the candidate: no partial matches |
| Phrase.Project | app.py:109 | one `(context, metadata)` pair per hit, in order |
| Phrase.EmitWithoutOffsets | app.py:79 | with one term the offset range is empty, so every candidate is emitted |
| Phrase.NGramSingleTerm | app.py:92-93 | on one term the n-gram matcher equals the unigram lookup projected to context and metadata |
| Engine.Run | app.py:103-114 | the answer is invalid iff the parse fails, has no terms iff the parse gives none, and never has more spans than records |
| Engine.ReportsMatches | app.py:105-119 | for a query with at least one term, the page reports matches (`if results:`) exactly when some record satisfies the first term and every later term `k` is found at id `base+k` |
| Engine.BlankQuery | app.py:107-114 | the no-terms outcome occurs iff the query is empty or all white space, and it reports zero matches |
| Engine.InvalidIffUnrecognisedWord | app.py:38-49 | a query is rejected iff one of its split words, lower-cased, has none of the three forms |
| Engine.DispatchAgreesWithNGram | app.py:107-111 | with at least one term the answer is always the n-gram matcher's, the one-term branch included |
| Scenarios.ParseNounQuoted | app.py:31-50 | `noun "бежит"` parses to `Pos("noun")`, `Token("\"бежит\"")` under every analyser |
| Scenarios.MatchNounQuoted | app.py:76-94 | after a noun at id 5, for any next record (a noun included), the span is reported exactly when the next record has id 6 and form `бежит`, and nothing else is reported |
| Scenarios.NounThenQuotedForm | app.py:103-111 | `noun "бежит"` over `кот бежит` reports the span of `кот` |
| Scenarios.NounThenOtherForm | app.py:87-93 | the same query over `кот прыгает` reports nothing |
| Scenarios.PunctuationRejects | app.py:46-49 | `xyz123!` is rejected |
| Scenarios.YoRejects | app.py:39-49 | `ЁЖ` lower-cases to `ёж`; `ё` is outside `а-я`, so the query is rejected |
| Scenarios.UpperCaseLabel | app.py:39-43 | `NOUN` parses to `Pos("noun")` |
| Scenarios.EmptyQuery | app.py:107-114 | the empty query has no terms |
| Scenarios.LoneQuote | app.py:40-45 | a lone `"` is a quoted term whose match value is empty |
| Scenarios.RunsOfSpace | app.py:33 | `a  b` followed by a tab splits to `a` and `b` |
| Scenarios.CrossPassageSpan | app.py:87-90 | a span whose second word lies in another passage is still reported |

## Left out

- The Flask application, its routes and page rendering (app.py:9-19, 97-124) are left out. `Engine.MatchCount` stands for the count the page shows.
- The `nltk` tokenizer (app.py:22-23) is not used on the query path.
- The analyser `pymorphy2` (app.py:26-28) is an arbitrary function parameter. No property of lemmas is assumed.
- SQLite I/O and SQL text (app.py:54-55, 65-68, 73-74, 87-90) are not modelled. The joined `morphology`/`context_metadata` rows are a `seq<Record>`, and rows with no context are simply absent from it. A `SELECT` without `ORDER BY` returns rows in the sequence's order.
- Column matching is exact string equality. SQL `LIKE` would treat `%` and `_` as wildcards and fold ASCII case.
- The SQL places the item inside double quotes (`LIKE "{item}"`, app.py:68 and 90). SQLite reads a double-quoted name as a column reference when a column of that name exists. So a query word that names a column is compared with that column, not with the literal text. For example, the quoted query `"lemma"` compares each record's token with its own lemma, and the same happens for `token`, `pos`, `context`, `metadata` and `id_morph`. The model always compares with the literal text.
- Other effects of building SQL text by string formatting are not modelled either. An item containing `"` or SQL syntax changes the statement itself.
- Text.Lower: maps only Latin `A-Z` and Cyrillic U+0400-U+042F. Python's `str.lower()` covers every script, so two kinds of query are answered differently:
  - a quoted word in another script keeps its capitals here: for `"Ґанок"` Python matches the form `ґанок`, the model the form `Ґанок`; accented Latin and Greek capitals behave the same way;
  - a few non-ASCII capitals lower-case to ASCII in Python: the Kelvin sign U+212A becomes `k`, so a bare word such as `Kот` is lemmatized by the code and rejected by the model.
  Python's `str.lower()` can also change a string's length (`İ`), which the model does not.
- Text.Split: splits on the characters `str.isspace()` accepts.
- Query.IsBareToken: `$` in `re.search` would also accept one trailing newline. That never matters here, because split words contain no white space.
- When the parse fails, `results()` passes the error string to `len()` and on to the n-gram path (app.py:105-111), which raises. The model returns a separate `Invalid` outcome instead and does not model the exception.
- `Engine.MatchCount` does not model the small difference between the page shown for no terms and the page shown for zero spans (app.py:113 vs 119). Both report zero.
- Phrase.OneFailingOffsetDiscards: requires unique ids. Without them, another record with the same id could still satisfy the term.
- Cross-passage spans: the n-gram check does not require later words to share the first word's passage. The model keeps this, as `Scenarios.CrossPassageSpan` shows.
