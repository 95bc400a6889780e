/**
 Worked queries over a two-word store, each stated for every lemmatizer.
 */
module Scenarios {
  import opened Text
  import opened Query
  import opened Corpus
  import opened Phrase
  import opened Engine

  const Cat: Record := Record(5, "кот", "кот", "noun", 1, "кот бежит", "post 1")
  const Runs: Record := Record(6, "бежит", "бежать", "verb", 1, "кот бежит", "post 1")
  const Jumps: Record := Record(6, "прыгает", "прыгать", "verb", 1, "кот прыгает", "post 1")

  lemma SplitNounQuoted()
    ensures Split("noun \"бежит\"") == ["noun", "\"бежит\""]
  {
    var words := ["noun", "\"бежит\""];
    assert Join(words) == "noun \"бежит\"" by {
      assert words[1..] == ["\"бежит\""];
    }
    assert IsWord(words[0]) && IsWord(words[1]);
    SplitJoin(words);
  }

  lemma ClassifyNoun(lemmatize: string -> string)
    ensures ClassifyItem(Lower("noun"), lemmatize) == Some(Pos("noun"))
  {
    LowerUnchanged("noun");
    assert PosLabels[0] == "noun";
  }

  lemma ClassifyQuotedRuns(lemmatize: string -> string)
    ensures ClassifyItem(Lower("\"бежит\""), lemmatize) == Some(Token("\"бежит\""))
  {
    LowerUnchanged("\"бежит\"");
    QuotedIsNotLabel("\"бежит\"");
  }

  /** `noun "бежит"` parses to a label followed by a quoted word form,
      whatever the lemmatizer. */
  lemma ParseNounQuoted(lemmatize: string -> string)
    ensures Parse("noun \"бежит\"", lemmatize) == Terms([Pos("noun"), Token("\"бежит\"")])
  {
    SplitNounQuoted();
    ClassifyNoun(lemmatize);
    ClassifyQuotedRuns(lemmatize);
    ParseTwoWords("noun", "\"бежит\"", lemmatize);
  }

  /** Two recognised words parse to their two terms. */
  lemma ParseTwoWords(a: string, b: string, lemmatize: string -> string)
    requires ClassifyItem(Lower(a), lemmatize).Some? && ClassifyItem(Lower(b), lemmatize).Some?
    ensures ParseWords([a, b], lemmatize) ==
              Terms([ClassifyItem(Lower(a), lemmatize).value, ClassifyItem(Lower(b), lemmatize).value])
  {
    assert [a, b][1..] == [b];
    assert [b][1..] == [];
  }

  /** Over `кот бежит` the noun at id 5 is followed at id 6 by the word form
      `бежит`, so the span starting at id 5 is reported. */
  lemma NounThenQuotedForm(lemmatize: string -> string)
    ensures Run([Cat, Runs], "noun \"бежит\"", lemmatize) == Matched([Span("кот бежит", "post 1")])
  {
    ParseNounQuoted(lemmatize);
    DispatchAgreesWithNGram([Cat, Runs], "noun \"бежит\"", lemmatize);
    MatchNounQuoted(Runs);
  }

  /** The same query when the word at id 6 is `прыгает`: the only offset
      check fails and nothing is reported. */
  lemma NounThenOtherForm(lemmatize: string -> string)
    ensures Run([Cat, Jumps], "noun \"бежит\"", lemmatize) == Matched([])
  {
    ParseNounQuoted(lemmatize);
    DispatchAgreesWithNGram([Cat, Jumps], "noun \"бежит\"", lemmatize);
    MatchNounQuoted(Jumps);
  }

  /** The terms of `noun "бежит"` over the noun at id 5 and any word
      `next`: the span of id 5 is reported exactly when `next` sits at id 6
      with the form `бежит`. A `next` that is itself a noun is a candidate
      too, but nothing follows it. */
  lemma MatchNounQuoted(next: Record)
    ensures NGram([Cat, next], [Pos("noun"), Token("\"бежит\"")]) ==
              if next.id == 6 && next.token == "бежит" then [Span("кот бежит", "post 1")] else []
  {
    var store := [Cat, next];
    var ts := [Pos("noun"), Token("\"бежит\"")];
    var first := if OffsetsMatch(store, ts, 5) then [Span("кот бежит", "post 1")] else [];
    RunsAtSix(next);
    assert OffsetsMatch(store, ts, 5) <==> HasAt(store, 6, ts[1]);
    if next.pos == "noun" {
      NounHitsBoth(next);
      NothingAfterNext(next);
      var cands := [HitOf(Cat), HitOf(next)];
      assert cands[1..] == [HitOf(next)];
      assert cands[1..][1..] == [];
      assert Emit(store, ts, cands[1..]) == [];
      assert NGram(store, ts) == first;
    } else {
      NounHits(next);
      var cands := [HitOf(Cat)];
      assert cands[1..] == [];
      assert NGram(store, ts) == first;
    }
  }

  /** When `next` is a noun as well, both records are hits of `noun`. */
  lemma NounHitsBoth(next: Record)
    requires next.pos == "noun"
    ensures Unigram([Cat, next], Pos("noun")) == [HitOf(Cat), HitOf(next)]
  {
    var t := Pos("noun");
    assert !IsQuoted("noun");
    assert Satisfies(Cat, t) && Satisfies(next, t);
    UnigramAppend([Cat], [next], t);
    assert [Cat, next] == [Cat] + [next];
    UnigramSingle(Cat, t);
    UnigramSingle(next, t);
  }

  /** No record of `[Cat, next]` follows `next` with the form `бежит`: `Cat`
      has the form `кот`, and `next` cannot follow itself. */
  lemma NothingAfterNext(next: Record)
    ensures !OffsetsMatch([Cat, next], [Pos("noun"), Token("\"бежит\"")], next.id)
  {
    var store := [Cat, next];
    var t := Token("\"бежит\"");
    assert StripQuotes(t.text) == "бежит" by {
      StripQuotesRoundTrip('"', "бежит");
      assert ['"'] + "бежит" + ['"'] == t.text;
    }
    var ts := [Pos("noun"), t];
    assert !Satisfies(Cat, t);
    forall i | 0 <= i < |store|
      ensures !(store[i].id == next.id + 1 && Satisfies(store[i], t))
    {
      if i == 1 {
        assert store[i].id == next.id;
      }
    }
    assert !HasAt(store, next.id + 1, ts[1]);
  }

  /** Only the first record of `[Cat, next]` is a noun. */
  lemma NounHits(next: Record)
    requires next.pos != "noun"
    ensures Unigram([Cat, next], Pos("noun")) == [HitOf(Cat)]
  {
    var t := Pos("noun");
    assert !IsQuoted("noun");
    assert Satisfies(Cat, t);
    assert !Satisfies(next, t);
    UnigramAppend([Cat], [next], t);
    assert [Cat, next] == [Cat] + [next];
    UnigramSingle(Cat, t);
    UnigramSingle(next, t);
  }

  /** The form `бежит` is found at id 6 exactly when `next` is there with
      that form, since `Cat` has id 5. */
  lemma RunsAtSix(next: Record)
    ensures HasAt([Cat, next], 6, Token("\"бежит\"")) <==> next.id == 6 && next.token == "бежит"
  {
    var store := [Cat, next];
    var t := Token("\"бежит\"");
    assert StripQuotes(t.text) == "бежит" by {
      StripQuotesRoundTrip('"', "бежит");
      assert ['"'] + "бежит" + ['"'] == t.text;
    }
    if next.id == 6 && next.token == "бежит" {
      assert store[1].id == 6 && Satisfies(store[1], t);
    }
  }

  /** A word with a character outside the three forms rejects the query. */
  lemma PunctuationRejects(store: Store, lemmatize: string -> string)
    ensures Run(store, "xyz123!", lemmatize) == Invalid
  {
    var w := "xyz123!";
    assert IsWord(w);
    SplitJoin([w]);
    LowerUnchanged(w);
    assert !IsBareChar(w[6]);
    PosLabelsAreBare();
    assert !Recognised(Lower(Split(w)[0]));
  }

  /** `ё` lies outside `а-я`, so a bare word containing it is rejected, and
      upper case `Ё` lower-cases to it. */
  lemma YoRejects(store: Store, lemmatize: string -> string)
    ensures Run(store, "ЁЖ", lemmatize) == Invalid
  {
    SplitJoin(["ЁЖ"]);
    var item := Lower("ЁЖ");
    assert item[0] == '\U{0451}';
    assert !IsBareChar(item[0]);
    assert !IsPosLabel(item) by {
      PosLabelsAreBare();
    }
  }

  /** An upper-case label is lower-cased and read as a part of speech, not
      sent to the lemmatizer. */
  lemma UpperCaseLabel(lemmatize: string -> string)
    ensures Parse("NOUN", lemmatize) == Terms([Pos("noun")])
  {
    SplitJoin(["NOUN"]);
    assert Lower("NOUN") == "noun";
    assert IsPosLabel("noun");
  }

  /** The empty query has no terms and reports zero matches. */
  lemma EmptyQuery(store: Store, lemmatize: string -> string)
    ensures Run(store, "", lemmatize) == NoTerms
  {
    BlankQuery(store, "", lemmatize);
  }

  /** A lone double quote is a quoted word whose stripped value is empty:
      it matches the records with an empty surface form. */
  lemma LoneQuote(lemmatize: string -> string)
    ensures Parse("\"", lemmatize) == Terms([Token("\"")])
    ensures StripQuotes("\"") == ""
  {
    SplitJoin(["\""]);
    assert Lower("\"") == "\"";
    QuotedIsNotLabel("\"");
  }

  /** Later offsets need not lie in the passage of the first word: a span
      whose two words belong to different passages is still reported. */
  lemma CrossPassageSpan()
    ensures var store := [Cat, Runs.(contextId := 2, context := "бежит", metadata := "post 2")];
            Cat.contextId != store[1].contextId
            && NGram(store, [Pos("noun"), Token("\"бежит\"")]) == [Span("кот бежит", "post 1")]
  {
    MatchNounQuoted(Runs.(contextId := 2, context := "бежит", metadata := "post 2"));
  }

  /** Two spaces between words and a tab at the end are one separator each:
      `a  b\t` splits to `a` and `b`, not to an empty or glued word. */
  lemma RunsOfSpace()
    ensures Split("a  b\t") == ["a", "b"]
  {
    SplitAtSpace("a", ' ', " b\t");
    SplitAtSpace("", ' ', "b\t");
    SplitAtSpace("b", '\t', "");
    assert "a" + [' '] + " b\t" == "a  b\t";
    assert "" + [' '] + "b\t" == " b\t";
    assert "b" + ['\t'] + "" == "b\t";
    SplitJoin(["a"]);
    SplitJoin(["b"]);
    SplitJoin([]);
  }
}
