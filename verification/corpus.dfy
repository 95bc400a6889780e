/**
 The indexed corpus and the unigram matcher. The store is the join of the
 per-word morphology rows with the context/metadata rows they point to, held
 as an immutable sequence in the store's return order; a column matches a
 term when it equals the term's text with one pair of quotes removed.
 */
module Corpus {
  import opened Query

  /** One word occurrence: its position id (consecutive ids are consecutive
      words), its surface form, lemma and part-of-speech tag, and the passage
      it belongs to together with that passage's text and metadata. */
  datatype Record = Record(
    id: int,
    token: string,
    lemmaForm: string,
    pos: string,
    contextId: int,
    context: string,
    metadata: string)

  /** A row of the unigram lookup: the record's id, context and metadata. */
  datatype Hit = Hit(id: int, context: string, metadata: string)

  /** A reported match: the context and metadata of its first word. */
  datatype Span = Span(context: string, metadata: string)

  type Store = seq<Record>

  function HitOf(r: Record): Hit {
    Hit(r.id, r.context, r.metadata)
  }

  function SpanOf(h: Hit): Span {
    Span(h.context, h.metadata)
  }

  /** Ids are keys: no two records share one. */
  predicate UniqueIds(store: Store) {
    forall i, j :: 0 <= i < |store| && 0 <= j < |store| && store[i].id == store[j].id ==> i == j
  }

  /** Python's `s[1:-1]`: drops the first and the last character, and is
      empty when there are fewer than two. */
  function DropEnds(s: string): (r: string)
    ensures |s| >= 2 ==> [s[0]] + r + [s[|s| - 1]] == s
    ensures |s| < 2 ==> r == []
  {
    if |s| < 2 then [] else s[1..|s| - 1]
  }

  /** The value a term is compared with: a quoted word loses its first and
      last character, anything else is used as it is. */
  function StripQuotes(item: string): (r: string)
    ensures IsQuoted(item) && |item| >= 2 ==> [item[0]] + r + [item[|item| - 1]] == item
    ensures IsQuoted(item) && |item| < 2 ==> r == []
    ensures !IsQuoted(item) ==> r == item
  {
    if IsQuoted(item) then DropEnds(item) else item
  }

  /** Quoting a word and stripping it gives the word back, whichever quote
      character is used. */
  lemma StripQuotesRoundTrip(q: char, w: string)
    requires q == '"' || q == '\''
    ensures StripQuotes([q] + w + [q]) == w
  {
    var item := [q] + w + [q];
    assert IsQuoted(item);
    assert item[1..|item| - 1] == w;
  }

  /** The column a term is matched against: part of speech, surface form or
      lemma. */
  function Column(r: Record, t: Term): string {
    match t
    case Pos(_) => r.pos
    case Token(_) => r.token
    case Lemma(_) => r.lemmaForm
  }

  predicate Satisfies(r: Record, t: Term) {
    Column(r, t) == StripQuotes(t.text)
  }

  /** The unigram lookup: a hit for every record satisfying `t`, in store
      order. */
  function Unigram(store: Store, t: Term): (hits: seq<Hit>)
    ensures |hits| <= |store|
  {
    if |store| == 0 then []
    else (if Satisfies(store[0], t) then [HitOf(store[0])] else []) + Unigram(store[1..], t)
  }

  /** Order: the hits of a store made of two parts are the hits of the
      first part followed by those of the second. */
  lemma {:induction false} UnigramAppend(a: Store, b: Store, t: Term)
    ensures Unigram(a + b, t) == Unigram(a, t) + Unigram(b, t)
    decreases |a|
  {
    if |a| == 0 {
      assert a + b == b;
    } else {
      var head := if Satisfies(a[0], t) then [HitOf(a[0])] else [];
      var ab := a + b;
      assert ab[0] == a[0] && ab[1..] == a[1..] + b;
      UnigramAppend(a[1..], b, t);
      calc {
        Unigram(ab, t);
        head + Unigram(a[1..] + b, t);
        head + (Unigram(a[1..], t) + Unigram(b, t));
        (head + Unigram(a[1..], t)) + Unigram(b, t);
        Unigram(a, t) + Unigram(b, t);
      }
    }
  }

  /** Completeness: every satisfying record is reported. */
  lemma {:induction false} UnigramComplete(store: Store, t: Term, i: int)
    requires 0 <= i < |store| && Satisfies(store[i], t)
    ensures HitOf(store[i]) in Unigram(store, t)
    decreases |store|
  {
    if i > 0 {
      assert store[1..][i - 1] == store[i];
      UnigramComplete(store[1..], t, i - 1);
    }
  }

  /** Soundness: every hit comes from a record satisfying the term. */
  lemma {:induction false} UnigramSound(store: Store, t: Term, h: Hit)
    requires h in Unigram(store, t)
    ensures exists i :: 0 <= i < |store| && Satisfies(store[i], t) && h == HitOf(store[i])
    decreases |store|
  {
    if !(Satisfies(store[0], t) && h == HitOf(store[0])) {
      UnigramSound(store[1..], t, h);
      var i :| 0 <= i < |store[1..]| && Satisfies(store[1..][i], t) && h == HitOf(store[1..][i]);
      assert store[1..][i] == store[i + 1];
    }
  }

  /** A record that does not satisfy the term contributes nothing. */
  lemma UnigramSingle(r: Record, t: Term)
    ensures Unigram([r], t) == if Satisfies(r, t) then [HitOf(r)] else []
  {
    assert [r][1..] == [];
  }

  /** Exactly the satisfying records are reported, as hits. */
  lemma UnigramMembers(store: Store, t: Term, h: Hit)
    ensures h in Unigram(store, t) <==>
              exists i :: 0 <= i < |store| && Satisfies(store[i], t) && h == HitOf(store[i])
  {
    if exists i :: 0 <= i < |store| && Satisfies(store[i], t) && h == HitOf(store[i]) {
      var i :| 0 <= i < |store| && Satisfies(store[i], t) && h == HitOf(store[i]);
      UnigramComplete(store, t, i);
    }
    if h in Unigram(store, t) {
      UnigramSound(store, t, h);
    }
  }
}
