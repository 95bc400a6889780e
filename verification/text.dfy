/**
 The two string operations the query parser applies before it classifies
 anything: Python's argument-less `str.split()` (break on runs of white space,
 drop empty pieces) and `str.lower()` (restricted here to the Latin and basic
 Cyrillic letters the query language is written in).
 */
module Text {

  /** The characters Python's `str.isspace()` accepts; argument-less
      `str.split()` separates words on runs of exactly these. */
  predicate IsSpace(c: char) {
    || ('\t' <= c <= '\r')
    || ('\U{1C}' <= c <= '\U{1F}')
    || c == ' '
    || c == '\U{85}'
    || c == '\U{A0}'
    || c == '\U{1680}'
    || ('\U{2000}' <= c <= '\U{200A}')
    || c == '\U{2028}'
    || c == '\U{2029}'
    || c == '\U{202F}'
    || c == '\U{205F}'
    || c == '\U{3000}'
  }

  /** A piece `split()` can return: non-empty and free of white space. */
  predicate IsWord(w: string) {
    |w| > 0 && NoSpace(w)
  }

  predicate NoSpace(w: string) {
    forall i :: 0 <= i < |w| ==> !IsSpace(w[i])
  }

  predicate AllSpace(s: string) {
    forall i :: 0 <= i < |s| ==> IsSpace(s[i])
  }

  /** The word being accumulated, emitted only when it is not empty. */
  function Flush(word: string): (r: seq<string>)
    requires NoSpace(word)
    ensures forall j :: 0 <= j < |r| ==> IsWord(r[j])
  {
    if |word| == 0 then [] else [word]
  }

  /** Scans `s` left to right, `word` holding the characters read since the
      last white space. */
  function SplitFrom(s: string, word: string): (r: seq<string>)
    requires NoSpace(word)
    ensures forall j :: 0 <= j < |r| ==> IsWord(r[j])
    decreases |s|
  {
    if |s| == 0 then Flush(word)
    else if IsSpace(s[0]) then Flush(word) + SplitFrom(s[1..], [])
    else SplitFrom(s[1..], word + [s[0]])
  }

  /** Python's `s.split()`. */
  function Split(s: string): (r: seq<string>)
    ensures forall j :: 0 <= j < |r| ==> IsWord(r[j])
  {
    SplitFrom(s, [])
  }

  /** The characters of `s` that are not white space, in order. */
  function RemoveSpace(s: string): (r: string)
    ensures NoSpace(r)
  {
    if |s| == 0 then []
    else if IsSpace(s[0]) then RemoveSpace(s[1..])
    else [s[0]] + RemoveSpace(s[1..])
  }

  function Concat(ws: seq<string>): string {
    if |ws| == 0 then [] else ws[0] + Concat(ws[1..])
  }

  /** The words joined by single spaces: the canonical query with these words. */
  function Join(ws: seq<string>): string {
    if |ws| == 0 then []
    else if |ws| == 1 then ws[0]
    else ws[0] + [' '] + Join(ws[1..])
  }

  lemma {:induction false} ConcatAppend(a: seq<string>, b: seq<string>)
    ensures Concat(a + b) == Concat(a) + Concat(b)
    decreases |a|
  {
    if |a| == 0 {
      assert a + b == b;
    } else {
      assert (a + b)[1..] == a[1..] + b;
      ConcatAppend(a[1..], b);
    }
  }

  lemma {:induction false} SplitFromConcat(s: string, word: string)
    requires NoSpace(word)
    ensures Concat(SplitFrom(s, word)) == word + RemoveSpace(s)
    decreases |s|
  {
    if |s| == 0 {
      assert Concat(Flush(word)) == word;
    } else if IsSpace(s[0]) {
      var rest := SplitFrom(s[1..], []);
      assert SplitFrom(s, word) == Flush(word) + rest;
      ConcatAppend(Flush(word), rest);
      assert Concat(Flush(word)) == word;
      SplitFromConcat(s[1..], []);
      assert RemoveSpace(s) == RemoveSpace(s[1..]);
    } else {
      assert SplitFrom(s, word) == SplitFrom(s[1..], word + [s[0]]);
      SplitFromConcat(s[1..], word + [s[0]]);
      assert RemoveSpace(s) == [s[0]] + RemoveSpace(s[1..]);
    }
  }

  /** Splitting loses exactly the white space: the words, put end to end,
      are the query with its white space removed. */
  lemma SplitKeepsNonSpace(s: string)
    ensures Concat(Split(s)) == RemoveSpace(s)
  {
    SplitFromConcat(s, []);
  }

  lemma {:induction false} RemoveSpaceEmpty(s: string)
    ensures |RemoveSpace(s)| == 0 <==> AllSpace(s)
    decreases |s|
  {
    if |s| > 0 {
      RemoveSpaceEmpty(s[1..]);
      if AllSpace(s) {
        assert AllSpace(s[1..]) by {
          forall i | 0 <= i < |s[1..]| ensures IsSpace(s[1..][i]) {
            assert s[1..][i] == s[i + 1];
          }
        }
      } else if IsSpace(s[0]) {
        var i :| 0 <= i < |s| && !IsSpace(s[i]);
        assert s[1..][i - 1] == s[i];
      }
    }
  }

  lemma {:induction false} ConcatOfWordsEmpty(ws: seq<string>)
    requires forall j :: 0 <= j < |ws| ==> IsWord(ws[j])
    ensures |Concat(ws)| == 0 <==> |ws| == 0
  {
    if |ws| > 0 {
      assert IsWord(ws[0]);
    }
  }

  /** A query yields no words exactly when it is empty or all white space. */
  lemma SplitEmptyIffBlank(s: string)
    ensures |Split(s)| == 0 <==> AllSpace(s)
  {
    SplitKeepsNonSpace(s);
    RemoveSpaceEmpty(s);
    ConcatOfWordsEmpty(Split(s));
  }

  lemma {:induction false} SplitFromSkipsWord(w: string, rest: string, word: string)
    requires NoSpace(word) && NoSpace(w)
    ensures SplitFrom(w + rest, word) == SplitFrom(rest, word + w)
    decreases |w|
  {
    if |w| == 0 {
      assert w + rest == rest;
      assert word + w == word;
    } else {
      assert (w + rest)[0] == w[0];
      assert (w + rest)[1..] == w[1..] + rest;
      assert NoSpace(w[1..]) by {
        forall i | 0 <= i < |w[1..]| ensures !IsSpace(w[1..][i]) {
          assert w[1..][i] == w[i + 1];
        }
      }
      SplitFromSkipsWord(w[1..], rest, word + [w[0]]);
      assert (word + [w[0]]) + w[1..] == word + w;
    }
  }

  /** Round trip: splitting the space-joined words gives the words back. */
  lemma {:induction false} SplitJoin(ws: seq<string>)
    requires forall j :: 0 <= j < |ws| ==> IsWord(ws[j])
    ensures Split(Join(ws)) == ws
    decreases |ws|
  {
    if |ws| == 0 {
    } else if |ws| == 1 {
      assert IsWord(ws[0]);
      SplitFromSkipsWord(ws[0], [], []);
      assert ws[0] + [] == ws[0];
      assert [] + ws[0] == ws[0];
      assert ws == [ws[0]];
    } else {
      var tail := Join(ws[1..]);
      assert IsWord(ws[0]);
      assert Join(ws) == ws[0] + ([' '] + tail);
      SplitFromSkipsWord(ws[0], [' '] + tail, []);
      assert [] + ws[0] == ws[0];
      assert ([' '] + tail)[1..] == tail;
      SplitJoin(ws[1..]);
      assert ws == [ws[0]] + ws[1..];
    }
  }

  lemma {:induction false} SplitFromAtSpace(x: string, c: char, y: string, word: string)
    requires NoSpace(word) && IsSpace(c)
    ensures SplitFrom(x + [c] + y, word) == SplitFrom(x, word) + SplitFrom(y, [])
    decreases |x|
  {
    var s := x + [c] + y;
    if |x| == 0 {
      assert s == [c] + y;
      assert s[1..] == y;
    } else {
      assert s[0] == x[0];
      assert s[1..] == x[1..] + [c] + y;
      if IsSpace(x[0]) {
        SplitFromAtSpace(x[1..], c, y, []);
        calc {
          SplitFrom(s, word);
          Flush(word) + SplitFrom(x[1..] + [c] + y, []);
          Flush(word) + (SplitFrom(x[1..], []) + SplitFrom(y, []));
          (Flush(word) + SplitFrom(x[1..], [])) + SplitFrom(y, []);
          SplitFrom(x, word) + SplitFrom(y, []);
        }
      } else {
        SplitFromAtSpace(x[1..], c, y, word + [x[0]]);
      }
    }
  }

  /** Any one white-space character, wherever it stands, separates: the
      words on its two sides are split independently. With `SplitJoin` on a
      single word this determines `Split` on every string. */
  lemma SplitAtSpace(x: string, c: char, y: string)
    requires IsSpace(c)
    ensures Split(x + [c] + y) == Split(x) + Split(y)
  {
    SplitFromAtSpace(x, c, y, []);
  }

  /** Upper-case letters `Lower` maps: Latin A-Z and Cyrillic U+0400-U+042F
      (Ѐ-Џ, А-Я). */
  predicate IsUpper(c: char) {
    ('A' <= c <= 'Z') || ('\U{0400}' <= c <= '\U{042F}')
  }

  /** The inverse of `LowerChar` on the letters it maps: a-z, а-я and
      ѐ-џ back to A-Z, А-Я and Ѐ-Џ. */
  function UpperChar(c: char): char {
    if 'a' <= c <= 'z' then (c as int - 32) as char
    else if '\U{0430}' <= c <= '\U{044F}' then (c as int - 32) as char
    else if '\U{0450}' <= c <= '\U{045F}' then (c as int - 80) as char
    else c
  }

  function LowerChar(c: char): (l: char)
    ensures !IsUpper(l)
    ensures !IsUpper(c) ==> l == c
    ensures IsUpper(c) ==> l != c && UpperChar(l) == c
  {
    if 'A' <= c <= 'Z' then (c as int + 32) as char
    else if '\U{0410}' <= c <= '\U{042F}' then (c as int + 32) as char
    else if '\U{0400}' <= c <= '\U{040F}' then (c as int + 80) as char
    else c
  }

  /** Python's `s.lower()` on the Latin and basic Cyrillic letters. */
  function Lower(s: string): (r: string)
    ensures |r| == |s|
    ensures forall i :: 0 <= i < |r| ==> !IsUpper(r[i])
    ensures forall i :: 0 <= i < |s| && !IsUpper(s[i]) ==> r[i] == s[i]
    ensures forall i :: 0 <= i < |s| && IsUpper(s[i]) ==> r[i] != s[i] && UpperChar(r[i]) == s[i]
  {
    seq(|s|, i requires 0 <= i < |s| => LowerChar(s[i]))
  }

  /** A word with no upper-case letter is its own lower-case form. */
  lemma LowerUnchanged(s: string)
    requires forall i :: 0 <= i < |s| ==> !IsUpper(s[i])
    ensures Lower(s) == s
  {
  }

  /** Lower-casing twice is lower-casing once. */
  lemma LowerIdempotent(s: string)
    ensures Lower(Lower(s)) == Lower(s)
  {
  }
}
