/**
 The query-term classifier: a raw query is split on white space, each word is
 lower-cased and then read, in this order of precedence, as a part-of-speech
 label, a quoted word form, or a bare word to be reduced to its lemma. One
 word that is none of these rejects the whole query.
 */
module Query {
  import opened Text

  /** A classified query word. The tag names the column it is matched
      against; `text` is what it must equal there (quotes of a `Token` are
      still attached, the matcher removes them). */
  datatype Term = Pos(text: string) | Token(text: string) | Lemma(text: string)

  datatype Option<T> = None | Some(value: T)

  /** Either the classified words, one per query word, or the message that
      rejects the query. */
  datatype Parsed = Terms(terms: seq<Term>) | Failed(message: string)

  const ErrorMessage: string := "Error, try again."

  /** The fixed part-of-speech labels a query may name. */
  const PosLabels: seq<string> := [
    "noun", "adj", "verb", "infn",
    "prtf", "prts", "grnd", "numr",
    "advb", "npro", "pred", "prep",
    "conj", "prcl", "intj"
  ]

  predicate IsPosLabel(item: string) {
    item in PosLabels
  }

  /** Starts and ends with `"`, or starts and ends with `'`; a lone quote
      character does both. */
  predicate IsQuoted(item: string) {
    && |item| > 0
    && ((item[0] == '"' && item[|item| - 1] == '"')
        || (item[0] == '\'' && item[|item| - 1] == '\''))
  }

  /** The characters of the pattern `[а-яa-z0-9]`: Cyrillic U+0430-U+044F
      (so not `ё`), Latin lower case, digits. */
  predicate IsBareChar(c: char) {
    ('\U{0430}' <= c <= '\U{044F}') || ('a' <= c <= 'z') || ('0' <= c <= '9')
  }

  /** The whole of `item` matches `^[а-яa-z0-9]+$`. */
  predicate IsBareToken(item: string) {
    |item| > 0 && forall i :: 0 <= i < |item| ==> IsBareChar(item[i])
  }

  /** A lower-cased word of one of the three accepted forms. */
  predicate Recognised(item: string) {
    IsPosLabel(item) || IsQuoted(item) || IsBareToken(item)
  }

  /** Classifies one lower-cased word; `lemmatize` is the morphological
      analyser, consulted for bare words only. */
  function ClassifyItem(item: string, lemmatize: string -> string): (r: Option<Term>)
    ensures r.Some? <==> Recognised(item)
    ensures r.Some? ==> KindAgrees(item, r.value)
    ensures r.Some? && r.value.Lemma? ==> r.value.text == lemmatize(item)
    ensures r.Some? && !r.value.Lemma? ==> r.value.text == item
  {
    if IsPosLabel(item) then Some(Pos(item))
    else if IsQuoted(item) then Some(Token(item))
    else if IsBareToken(item) then Some(Lemma(lemmatize(item)))
    else None
  }

  /** Which variant a recognised lower-cased word becomes: the first of the
      three forms, in precedence order, that it has. */
  predicate KindAgrees(item: string, t: Term) {
    && (t.Pos? <==> IsPosLabel(item))
    && (t.Token? <==> !IsPosLabel(item) && IsQuoted(item))
    && (t.Lemma? <==> IsLemmaWord(item))
  }

  /** A word of the third form only: the one kind the lemmatizer sees. */
  predicate IsLemmaWord(item: string) {
    !IsPosLabel(item) && !IsQuoted(item) && IsBareToken(item)
  }

  /** Classifies the words in order, lower-casing each; the first
      unrecognised word rejects the whole list. */
  function ParseWords(words: seq<string>, lemmatize: string -> string): (r: Parsed)
    ensures r.Failed? <==> exists i :: 0 <= i < |words| && !Recognised(Lower(words[i]))
    ensures r.Failed? ==> r.message == ErrorMessage
    ensures r.Terms? ==> |r.terms| == |words|
    ensures r.Terms? ==> forall i :: 0 <= i < |words| ==> KindAgrees(Lower(words[i]), r.terms[i])
    ensures r.Terms? ==> forall i :: 0 <= i < |words| && r.terms[i].Lemma? ==>
                           r.terms[i].text == lemmatize(Lower(words[i]))
    ensures r.Terms? ==> forall i :: 0 <= i < |words| && !r.terms[i].Lemma? ==>
                           r.terms[i].text == Lower(words[i])
  {
    if |words| == 0 then Terms([])
    else
      match ClassifyItem(Lower(words[0]), lemmatize)
      case None => Failed(ErrorMessage)
      case Some(t) =>
        var rest := ParseWords(words[1..], lemmatize);
        assert forall i :: 1 <= i < |words| ==> words[1..][i - 1] == words[i];
        if rest.Failed? then rest else Terms([t] + rest.terms)
  }

  /** The classifier applied to a raw query string. */
  function Parse(query: string, lemmatize: string -> string): (r: Parsed)
    ensures r.Failed? <==> exists i :: 0 <= i < |Split(query)| && !Recognised(Lower(Split(query)[i]))
    ensures r.Failed? ==> r.message == ErrorMessage
    ensures r.Terms? ==> |r.terms| == |Split(query)|
    ensures r.Terms? ==> forall i :: 0 <= i < |Split(query)| ==> KindAgrees(Lower(Split(query)[i]), r.terms[i])
    ensures r.Terms? ==> forall i :: 0 <= i < |Split(query)| && r.terms[i].Lemma? ==>
                           r.terms[i].text == lemmatize(Lower(Split(query)[i]))
    ensures r.Terms? ==> forall i :: 0 <= i < |Split(query)| && !r.terms[i].Lemma? ==>
                           r.terms[i].text == Lower(Split(query)[i])
  {
    ParseWords(Split(query), lemmatize)
  }

  /** Every part-of-speech label is also a bare token, so only the order of
      the tests keeps labels away from the lemmatizer. */
  lemma PosLabelsAreBare()
    ensures forall l :: l in PosLabels ==> IsBareToken(l)
  {
  }

  /** A quoted word is never a label: labels begin with a letter. */
  lemma QuotedIsNotLabel(item: string)
    requires IsQuoted(item)
    ensures !IsPosLabel(item)
  {
    PosLabelsAreBare();
  }

  /** Precedence: a word whose lower-cased form is a label becomes `Pos`
      and never `Lemma`, although it also matches the bare-token pattern. */
  lemma PosPrecedence(words: seq<string>, lemmatize: string -> string, i: int)
    requires 0 <= i < |words| && IsPosLabel(Lower(words[i]))
    requires ParseWords(words, lemmatize).Terms?
    ensures ParseWords(words, lemmatize).terms[i] == Pos(Lower(words[i]))
    ensures IsBareToken(Lower(words[i]))
  {
    PosLabelsAreBare();
  }

  /** The lemmatizer is consulted only for bare words: two analysers that
      agree on those words give the same parse. */
  lemma {:induction false} LemmatizerOnlyForBareWords(words: seq<string>, f: string -> string, g: string -> string)
    requires forall i :: 0 <= i < |words| && IsLemmaWord(Lower(words[i])) ==>
               f(Lower(words[i])) == g(Lower(words[i]))
    ensures ParseWords(words, f) == ParseWords(words, g)
    decreases |words|
  {
    if |words| > 0 {
      assert forall i :: 1 <= i < |words| ==> words[1..][i - 1] == words[i];
      LemmatizerOnlyForBareWords(words[1..], f, g);
      assert ClassifyItem(Lower(words[0]), f) == ClassifyItem(Lower(words[0]), g);
    }
  }

  /** A query none of whose words reaches the third branch (labels and
      quoted words only) parses the same whatever the analyser. */
  lemma ParseWithoutBareWords(query: string, f: string -> string, g: string -> string)
    requires forall i :: 0 <= i < |Split(query)| ==> !IsLemmaWord(Lower(Split(query)[i]))
    ensures Parse(query, f) == Parse(query, g)
  {
    LemmatizerOnlyForBareWords(Split(query), f, g);
  }
}
