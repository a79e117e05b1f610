/** The older topic matcher of server/services/topic.js: the words of the
    tweet text, lower-cased, against the lower-cased keywords of every
    topic that has keywords. */
module TopicService {
  import opened Js

  /** A character `\w` matches. */
  predicate IsWordChar(c: char)
  {
    'a' <= c <= 'z' || 'A' <= c <= 'Z' || '0' <= c <= '9' || c == '_'
  }

  predicate AllWordChars(s: string)
  {
    forall i | 0 <= i < |s| :: IsWordChar(s[i])
  }

  /** The run `cur` collected so far, as a list of zero or one words. */
  function Flush(cur: string): seq<string>
  {
    if cur == [] then [] else [cur]
  }

  /** The maximal runs of word characters of `s`, after the run `cur`
      already started. */
  function Runs(s: string, cur: string): seq<string>
    decreases |s|
  {
    if s == [] then Flush(cur)
    else if IsWordChar(s[0]) then Runs(s[1..], cur + [s[0]])
    else Flush(cur) + Runs(s[1..], "")
  }

  /** `text.match(/\w+/g)`, with `null` (no match) as the empty list, which
      is what `_.uniq` makes of it. */
  function Words(text: string): seq<string>
  {
    Runs(text, "")
  }

  /** The word characters of `s`, in order. */
  function WordChars(s: string): string
  {
    if s == [] then [] else (if IsWordChar(s[0]) then [s[0]] else []) + WordChars(s[1..])
  }

  function Concat(ws: seq<string>): string
  {
    if ws == [] then [] else ws[0] + Concat(ws[1..])
  }

  lemma {:induction false} ConcatAppend(a: seq<string>, b: seq<string>)
    ensures Concat(a + b) == Concat(a) + Concat(b)
  {
    if a != [] {
      assert (a + b)[0] == a[0];
      assert (a + b)[1..] == a[1..] + b;
      ConcatAppend(a[1..], b);
      assert Concat(a + b) == a[0] + Concat(a[1..] + b);
      assert a[0] + (Concat(a[1..]) + Concat(b)) == (a[0] + Concat(a[1..])) + Concat(b);
    } else {
      assert a + b == b;
    }
  }

  /** Every run is a non-empty string of word characters. */
  lemma {:induction false} RunsAreWords(s: string, cur: string)
    requires AllWordChars(cur)
    ensures forall i | 0 <= i < |Runs(s, cur)| :: Runs(s, cur)[i] != [] && AllWordChars(Runs(s, cur)[i])
    decreases |s|
  {
    if s != [] {
      if IsWordChar(s[0]) {
        RunsAreWords(s[1..], cur + [s[0]]);
      } else {
        RunsAreWords(s[1..], "");
      }
    }
  }

  /** The runs, put back together, are the word characters of the text,
      the started run first: no word character is lost or invented. */
  lemma {:induction false} RunsCover(s: string, cur: string)
    ensures Concat(Runs(s, cur)) == cur + WordChars(s)
    decreases |s|
  {
    if s == [] {
      FlushConcat(cur);
    } else if IsWordChar(s[0]) {
      RunsCover(s[1..], cur + [s[0]]);
      assert cur + [s[0]] + WordChars(s[1..]) == cur + WordChars(s);
    } else {
      RunsCover(s[1..], "");
      ConcatAppend(Flush(cur), Runs(s[1..], ""));
      FlushConcat(cur);
    }
  }

  /** A flushed run puts back what it held. */
  lemma FlushConcat(cur: string)
    ensures Concat(Flush(cur)) == cur
  {
    if cur != [] {
      assert Concat([cur]) == cur + Concat([]);
    }
  }

  /** The words of a text are non-empty runs of word characters which,
      put together, give back exactly its word characters. */
  lemma WordsOfText(text: string)
    ensures forall i | 0 <= i < |Words(text)| :: Words(text)[i] != [] && AllWordChars(Words(text)[i])
    ensures Concat(Words(text)) == WordChars(text)
  {
    RunsAreWords(text, "");
    RunsCover(text, "");
  }

  /** A list of non-empty strings is no longer than their concatenation. */
  lemma {:induction false} ConcatLength(ws: seq<string>)
    requires forall i | 0 <= i < |ws| :: ws[i] != []
    ensures |ws| <= |Concat(ws)|
  {
    if ws != [] {
      ConcatLength(ws[1..]);
    }
  }

  /** A text with no word character has no words. */
  lemma NoWordCharsNoWords(text: string)
    requires forall i | 0 <= i < |text| :: !IsWordChar(text[i])
    ensures Words(text) == []
  {
    WordsOfText(text);
    NoWordChars(text);
    ConcatLength(Words(text));
  }

  lemma {:induction false} NoWordChars(s: string)
    requires forall i | 0 <= i < |s| :: !IsWordChar(s[i])
    ensures WordChars(s) == []
  {
    if s != [] {
      NoWordChars(s[1..]);
    }
  }

  /** `keywords.map(_.toLower)`. */
  function LowerAll(ws: seq<string>): (r: seq<string>)
    ensures |r| == |ws|
    ensures forall i | 0 <= i < |ws| :: r[i] == Lower(ws[i])
  {
    seq(|ws|, i requires 0 <= i < |ws| => Lower(ws[i]))
  }

  /** `_.uniq(text.match(/\w+/g)).map(_.toLower)`. */
  function Tokens(text: string): seq<string>
  {
    LowerAll(Uniq(Words(text)))
  }

  /** A topic row: its id and its keyword array. */
  datatype Topic = Topic(id: nat, keywords: seq<string>)

  /** `_.intersection(tokens, keywords.map(_.toLower)).length` is not 0. */
  predicate Hits(tokens: seq<string>, keywords: seq<string>)
  {
    exists i, j | 0 <= i < |tokens| && 0 <= j < |keywords| :: tokens[i] == Lower(keywords[j])
  }

  /** `topics.filter(...)`, over the topics the query fetched: those whose
      keyword array is not empty. */
  function Matched(topics: seq<Topic>, tokens: seq<string>): (r: seq<Topic>)
    ensures forall t :: t in r <==> t in topics && t.keywords != [] && Hits(tokens, t.keywords)
    ensures |r| <= |topics|
    ensures Distinct(topics) ==> Distinct(r)
  {
    if topics == [] then []
    else
      var rest := Matched(topics[1..], tokens);
      var t := topics[0];
      if t.keywords != [] && Hits(tokens, t.keywords) then [t] + rest else rest
  }

  /** `idx` picks positions of a sequence of length `n`, strictly
      ascending. */
  predicate AscendingIndexes(idx: seq<int>, n: int)
  {
    && (forall i | 0 <= i < |idx| :: 0 <= idx[i] < n)
    && (forall i, j | 0 <= i < j < |idx| :: idx[i] < idx[j])
  }

  /** Every position one further on. */
  function Shift(idx: seq<int>): (r: seq<int>)
    ensures |r| == |idx|
    ensures forall i | 0 <= i < |idx| :: r[i] == idx[i] + 1
  {
    seq(|idx|, i requires 0 <= i < |idx| => idx[i] + 1)
  }

  /** Positions in `s[1..]` shifted by one are positions in `s`, with or
      without position 0 in front. */
  lemma ShiftPositions<T>(s: seq<T>, r: seq<T>, tail: seq<int>)
    requires |s| > 0 && AscendingIndexes(tail, |s| - 1) && |tail| == |r|
    requires forall i | 0 <= i < |tail| :: r[i] == s[1..][tail[i]]
    ensures AscendingIndexes(Shift(tail), |s|)
    ensures forall i | 0 <= i < |tail| :: r[i] == s[Shift(tail)[i]]
    ensures AscendingIndexes([0] + Shift(tail), |s|)
    ensures forall i | 0 <= i < |tail| + 1 :: ([s[0]] + r)[i] == s[([0] + Shift(tail))[i]]
  {
    var idx := [0] + Shift(tail);
    forall i | 0 <= i < |idx|
      ensures ([s[0]] + r)[i] == s[idx[i]]
    {
      if i > 0 {
        assert idx[i] == Shift(tail)[i - 1];
      }
    }
  }

  /** Where the matched topics sit in the fetched list. The filter keeps
      the fetch order: the matched topics are the fetched topics at
      strictly ascending positions. */
  function MatchedPositions(topics: seq<Topic>, tokens: seq<string>): (r: seq<int>)
    ensures AscendingIndexes(r, |topics|) && |r| == |Matched(topics, tokens)|
    ensures forall i | 0 <= i < |r| :: Matched(topics, tokens)[i] == topics[r[i]]
    decreases |topics|
  {
    if topics == [] then []
    else
      var tail := MatchedPositions(topics[1..], tokens);
      ShiftPositions(topics, Matched(topics[1..], tokens), tail);
      if topics[0].keywords != [] && Hits(tokens, topics[0].keywords) then [0] + Shift(tail) else Shift(tail)
  }

  /** `process(tweet)`: the matched topics, in fetch order, which are what
      is attached to the tweet; `[]`, with nothing attached, when none
      matched. */
  function Process(topics: seq<Topic>, text: string): seq<Topic>
  {
    Matched(topics, Tokens(text))
  }

  /** Lower-casing keeps a character a word character or not. */
  lemma LowerCharWord(c: char)
    ensures IsWordChar(LowerChar(c)) <==> IsWordChar(c)
  {
  }

  /** `Uniq` keeps the elements it is given. */
  lemma UniqSame<T(!new)>(s: seq<T>)
    ensures forall x :: x in Uniq(s) <==> x in s
  {
  }

  /** A topic is matched exactly when one of its keywords equals a word of
      the text up to case; both sides are lower-cased. */
  lemma ProcessMatches(topics: seq<Topic>, text: string, t: Topic)
    ensures t in Process(topics, text) <==>
            t in topics && t.keywords != [] &&
            exists w, j | w in Words(text) && 0 <= j < |t.keywords| :: Lower(w) == Lower(t.keywords[j])
  {
    var tokens := Tokens(text);
    var u := Uniq(Words(text));
    UniqSame(Words(text));
    if Hits(tokens, t.keywords) {
      var i, j :| 0 <= i < |tokens| && 0 <= j < |t.keywords| && tokens[i] == Lower(t.keywords[j]);
      assert u[i] in Words(text) && Lower(u[i]) == Lower(t.keywords[j]);
    }
    if exists w, j | w in Words(text) && 0 <= j < |t.keywords| :: Lower(w) == Lower(t.keywords[j]) {
      var w, j :| w in Words(text) && 0 <= j < |t.keywords| && Lower(w) == Lower(t.keywords[j]);
      assert w in u;
      var i :| 0 <= i < |u| && u[i] == w;
      assert tokens[i] == Lower(t.keywords[j]);
    }
  }

  /** A keyword holding a character that is not a word character (a space,
      `#`, `-`) is never equal to a token; a topic all of whose keywords
      are like that never matches. */
  lemma NonWordKeywordNeverMatches(topics: seq<Topic>, text: string, t: Topic)
    requires forall j | 0 <= j < |t.keywords| :: !AllWordChars(t.keywords[j])
    ensures t !in Process(topics, text)
  {
    var tokens := Tokens(text);
    var u := Uniq(Words(text));
    WordsOfText(text);
    UniqSame(Words(text));
    forall i, j | 0 <= i < |tokens| && 0 <= j < |t.keywords|
      ensures tokens[i] != Lower(t.keywords[j])
    {
      var k := t.keywords[j];
      var p :| 0 <= p < |k| && !IsWordChar(k[p]);
      LowerCharWord(k[p]);
      assert u[i] in Words(text);
      var q :| 0 <= q < |Words(text)| && Words(text)[q] == u[i];
      assert AllWordChars(u[i]);
      if |u[i]| == |k| {
        LowerCharWord(u[i][p]);
        assert IsWordChar(tokens[i][p]);
        assert !IsWordChar(Lower(k)[p]);
      }
    }
  }

  /** A text with no word character matches nothing. */
  lemma BlankTextMatchesNothing(topics: seq<Topic>, text: string)
    requires forall i | 0 <= i < |text| :: !IsWordChar(text[i])
    ensures Process(topics, text) == []
  {
    NoWordCharsNoWords(text);
    assert Tokens(text) == [];
    MatchedNoTokens(topics);
  }

  lemma {:induction false} MatchedNoTokens(topics: seq<Topic>)
    ensures Matched(topics, []) == []
  {
    if topics != [] {
      MatchedNoTokens(topics[1..]);
    }
  }
}
