/** The topic matcher of server/modules/topic.js: an in-memory index from
    topic id to keyword set (`Topics`), filled from the `topic` table at
    start-up and kept up to date by `created` and `removed`, against which
    the tokens of each tweet's lower-cased text are matched. */
module TopicModule {
  import opened Js

  /** Topic id to its keyword set. Topic ids are the table's serial ids,
      so the object's keys are integer-like and `Object.keys` lists them in
      ascending order; `+id` turns each back into the number. */
  type Store = map<nat, set<string>>

  /** The keyword set `new Set(keywords)` builds. */
  function KeywordSet(keywords: seq<string>): (r: set<string>)
    ensures forall k :: k in r <==> k in keywords
  {
    set k | k in keywords
  }

  /** `keywords.map(_.toLower)`. */
  function LowerAll(keywords: seq<string>): (r: seq<string>)
    ensures |r| == |keywords|
    ensures forall i | 0 <= i < |keywords| :: r[i] == Lower(keywords[i])
  {
    seq(|keywords|, i requires 0 <= i < |keywords| => Lower(keywords[i]))
  }

  /** Some token is in the keyword set: `tokens.find((token) => set.has(token))`
      comes back with a token. A found `""` would be falsy in JavaScript,
      but the tokenizer never yields one: every alternative of its regular
      expression consumes at least one character. */
  predicate AnyIn(tokens: seq<string>, keywords: set<string>)
  {
    exists i | 0 <= i < |tokens| :: tokens[i] in keywords
  }

  /** The ids of the stored topics that one of the tokens matches. */
  ghost function Matching(store: Store, tokens: seq<string>): set<nat>
  {
    set id | id in store && AnyIn(tokens, store[id])
  }

  /** Strictly ascending: each id once, in `Object.keys` order. */
  predicate Ascending(ids: seq<nat>)
  {
    forall i, j | 0 <= i < j < |ids| :: ids[i] < ids[j]
  }

  /** Two ascending lists of the same ids are the same list. */
  lemma {:induction false} AscendingUnique(a: seq<nat>, b: seq<nat>)
    requires Ascending(a) && Ascending(b)
    requires forall x :: x in a <==> x in b
    ensures a == b
    decreases |a|
  {
    EmptyAlike(a, b);
    if a != [] {
      SameHead(a, b);
      forall x
        ensures x in a[1..] <==> x in b[1..]
      {
        if x in a[1..] {
          TailIn(a, b, x);
        }
        if x in b[1..] {
          TailIn(b, a, x);
        }
      }
      AscendingUnique(a[1..], b[1..]);
      assert a == [a[0]] + a[1..] && b == [b[0]] + b[1..];
    }
  }

  /** Lists of the same ids are empty together. */
  lemma EmptyAlike(a: seq<nat>, b: seq<nat>)
    requires forall x :: x in a <==> x in b
    ensures a == [] <==> b == []
  {
    if a != [] {
      assert a[0] in b;
    }
    if b != [] {
      assert b[0] in a;
    }
  }

  /** Two non-empty ascending lists of the same ids start alike. */
  lemma SameHead(a: seq<nat>, b: seq<nat>)
    requires a != [] && b != []
    requires Ascending(a) && Ascending(b)
    requires forall x :: x in a <==> x in b
    ensures a[0] == b[0]
  {
    assert a[0] in b && b[0] in a;
    var k :| 0 <= k < |b| && b[k] == a[0];
    var l :| 0 <= l < |a| && a[l] == b[0];
    assert a[0] <= a[l] && b[0] <= b[k];
  }

  /** Past a shared head, an id of one list's tail is in the other's. */
  lemma TailIn(a: seq<nat>, b: seq<nat>, x: nat)
    requires a != [] && b != [] && a[0] == b[0]
    requires Ascending(a) && Ascending(b)
    requires forall y :: y in a <==> y in b
    requires x in a[1..]
    ensures x in b[1..]
  {
    var k :| 1 <= k < |a| && a[k] == x;
    assert a[0] < x;
    assert x in b;
    var l :| 0 <= l < |b| && b[l] == x;
    assert l != 0 && b[1..][l - 1] == x;
  }

  lemma AscendingSnoc(ids: seq<nat>, m: nat)
    requires Ascending(ids)
    requires forall x | x in ids :: x < m
    ensures Ascending(ids + [m])
  {
    forall i, j | 0 <= i < j < |ids| + 1
      ensures (ids + [m])[i] < (ids + [m])[j]
    {
      assert (ids + [m])[i] == ids[i];
      if j == |ids| {
        assert ids[i] in ids;
      }
    }
  }

  /** A non-empty finite set of ids has a least one. */
  lemma HasLeast(s: set<nat>)
    requires s != {}
    ensures exists m | m in s :: forall y | y in s :: m <= y
  {
    var m := LeastOf(s);
  }

  /** Picks the least id of a non-empty set. */
  method Least(s: set<nat>) returns (m: nat)
    requires s != {}
    ensures m in s && forall y | y in s :: m <= y
  {
    HasLeast(s);
    m :| m in s && forall y | y in s :: m <= y;
  }

  lemma {:induction false} LeastOf(s: set<nat>) returns (m: nat)
    requires s != {}
    ensures m in s && forall y | y in s :: m <= y
    decreases |s|
  {
    var x :| x in s;
    if s == {x} {
      m := x;
    } else {
      var rest := LeastOf(s - {x});
      m := if x < rest then x else rest;
      forall y | y in s
        ensures m <= y
      {
        if y != x {
          assert y in s - {x};
        }
      }
    }
  }

  /** A row of `select id, keywords from topic where keywords <> '{}'`. */
  datatype TopicRow = TopicRow(id: nat, keywords: seq<string>)

  /** The store after `add(id, keywords.map(_.toLower))` for each row in
      turn; a later row with the same id replaces an earlier one. */
  function Loaded(store: Store, rows: seq<TopicRow>): Store
    decreases |rows|
  {
    if rows == [] then store
    else
      var row := rows[|rows| - 1];
      Loaded(store, rows[..|rows| - 1])[row.id := KeywordSet(LowerAll(row.keywords))]
  }

  /** After loading, a topic's keywords are the lower-cased keywords of the
      last row with its id; ids with no row keep what they had. */
  lemma {:induction false} LoadedLast(store: Store, rows: seq<TopicRow>, id: nat)
    ensures (exists i | 0 <= i < |rows| :: rows[i].id == id) ==>
              var i := LastRow(rows, id);
              id in Loaded(store, rows) && Loaded(store, rows)[id] == KeywordSet(LowerAll(rows[i].keywords))
    ensures (forall i | 0 <= i < |rows| :: rows[i].id != id) ==>
              (id in Loaded(store, rows) <==> id in store) &&
              (id in store ==> Loaded(store, rows)[id] == store[id])
    decreases |rows|
  {
    if rows != [] {
      var init := rows[..|rows| - 1];
      LoadedLast(store, init, id);
      if rows[|rows| - 1].id != id {
        if exists i | 0 <= i < |rows| :: rows[i].id == id {
          var i :| 0 <= i < |rows| && rows[i].id == id;
          assert init[i].id == id;
        }
        if exists i | 0 <= i < |init| :: init[i].id == id {
          var i :| 0 <= i < |init| && init[i].id == id;
          assert rows[i].id == id;
        }
      }
    }
  }

  /** The index of the last row with the given id. */
  function LastRow(rows: seq<TopicRow>, id: nat): (i: nat)
    requires exists i | 0 <= i < |rows| :: rows[i].id == id
    ensures i < |rows| && rows[i].id == id
    ensures forall j | i < j < |rows| :: rows[j].id != id
    decreases |rows|
  {
    if rows[|rows| - 1].id == id then |rows| - 1
    else
      var init := rows[..|rows| - 1];
      var k :| 0 <= k < |rows| && rows[k].id == id;
      assert init[k].id == id;
      var i := LastRow(init, id);
      assert rows[i] == init[i];
      i
  }

  /** No character of the string is an upper-case letter. */
  predicate LowerCase(s: string)
  {
    forall i | 0 <= i < |s| :: !IsUpper(s[i])
  }

  class Topics {
    var store: Store

    /** `store: {}`. */
    constructor ()
      ensures store == map[]
    {
      store := map[];
    }

    /** `add(id, keywords)`: the whole keyword set is replaced, never
        merged. */
    method Add(id: nat, keywords: seq<string>)
      modifies this
      ensures store == old(store)[id := KeywordSet(keywords)]
    {
      store := store[id := KeywordSet(keywords)];
    }

    /** `delete(id, keyword)`: the topic goes, whatever the second
        argument is. */
    method Delete(id: nat, keyword: string)
      modifies this
      ensures store == old(store) - {id}
    {
      store := store - {id};
    }

    /** `init()`: each fetched row's keywords, lower-cased. */
    method Init(rows: seq<TopicRow>)
      modifies this
      ensures store == Loaded(old(store), rows)
    {
      var i := 0;
      while i < |rows|
        invariant 0 <= i <= |rows|
        invariant store == Loaded(old(store), rows[..i])
      {
        Add(rows[i].id, LowerAll(rows[i].keywords));
        assert rows[..i + 1][..i] == rows[..i];
        i := i + 1;
      }
      assert rows[..i] == rows;
    }

    /** `match(tokens)`: the ids, ascending, of the topics one of the tokens
        matches. The regular expression finds no token in a blank text and
        gives `null`; `tokens.find` on it throws as soon as one topic is
        stored, reported here as None. */
    method Match(tokens: Option<seq<string>>) returns (r: Option<seq<nat>>)
      ensures r.None? <==> tokens.None? && store != map[]
      ensures r.Some? ==> Ascending(r.value)
      ensures r.Some? ==> forall id :: id in r.value <==> id in Matching(store, if tokens.Some? then tokens.value else [])
    {
      if tokens.None? && store != map[] {
        return None;
      }
      var ts := if tokens.Some? then tokens.value else [];
      var rest := store.Keys;
      var ids := [];
      while rest != {}
        invariant rest <= store.Keys
        invariant Ascending(ids)
        invariant forall x, y | x in ids && y in rest :: x < y
        invariant forall id :: id in ids <==> id in store && id !in rest && AnyIn(ts, store[id])
        decreases |rest|
      {
        var m := Least(rest);
        if AnyIn(ts, store[m]) {
          AscendingSnoc(ids, m);
          ids := ids + [m];
        }
        rest := rest - {m};
      }
      r := Some(ids);
      assert forall id :: id in Matching(store, ts) <==> id in store && AnyIn(ts, store[id]);
    }

    /** `process(tweet)`: the matched ids, and the ids attached to the
        tweet, an attach being made only when one topic matched. The
        tokenizer is the source's regular expression, applied to the
        lower-cased text. */
    method Process(text: string, tokenize: string -> Option<seq<string>>) returns (r: Option<seq<nat>>, attached: Option<seq<nat>>)
      ensures var tokens := tokenize(Lower(text));
              && (r.None? <==> tokens.None? && store != map[])
              && (r.Some? ==> Ascending(r.value))
              && (r.Some? ==> forall id :: id in r.value <==> id in Matching(store, if tokens.Some? then tokens.value else []))
      ensures attached.Some? <==> r.Some? && r.value != []
      ensures attached.Some? ==> attached == r
    {
      r := Match(tokenize(Lower(text)));
      attached := if r.Some? && r.value != [] then r else None;
    }

    /** `created({ id, keywords })`: stores the keywords as given. */
    method Created(id: nat, keywords: seq<string>)
      modifies this
      ensures store == old(store)[id := KeywordSet(keywords)]
    {
      Add(id, keywords);
    }

    /** `created`, lower-casing the keywords as `init` does. */
    method CreatedLowered(id: nat, keywords: seq<string>)
      modifies this
      ensures store == old(store)[id := KeywordSet(LowerAll(keywords))]
    {
      Add(id, LowerAll(keywords));
    }

    /** `removed({ id })`. */
    method Removed(id: nat)
      modifies this
      ensures store == old(store) - {id}
    {
      Delete(id, "");
    }
  }

  /** With an unchanged store, matching is a function of the tokens:
      whatever two runs of `Match` return for the same tokens is equal. */
  lemma MatchDeterministic(store: Store, tokens: seq<string>, a: seq<nat>, b: seq<nat>)
    requires Ascending(a) && Ascending(b)
    requires forall id :: id in a <==> id in Matching(store, tokens)
    requires forall id :: id in b <==> id in Matching(store, tokens)
    ensures a == b
  {
    AscendingUnique(a, b);
  }

  /** A removed topic is matched by no tokens. */
  lemma RemovedNeverMatches(store: Store, id: nat, tokens: seq<string>)
    ensures id !in Matching(store - {id}, tokens)
    ensures forall other | other != id :: other in Matching(store - {id}, tokens) <==> other in Matching(store, tokens)
  {
    forall other | other != id
      ensures other in Matching(store - {id}, tokens) <==> other in Matching(store, tokens)
    {
      if other in store {
        assert (store - {id})[other] == store[other] by {
          assert other in store - {id};
        }
      }
    }
  }

  /** The tokens come from the lower-cased text, so none holds an upper-case
      letter; a topic added at run time whose keywords all hold one is then
      never matched. */
  lemma CreatedUpperNeverMatches(store: Store, id: nat, keywords: seq<string>, tokens: seq<string>)
    requires forall i | 0 <= i < |tokens| :: LowerCase(tokens[i])
    requires forall k | k in keywords :: !LowerCase(k)
    ensures id !in Matching(store[id := KeywordSet(keywords)], tokens)
  {
    forall i | 0 <= i < |tokens|
      ensures tokens[i] !in KeywordSet(keywords)
    {
      assert LowerCase(tokens[i]);
    }
  }

  /** A keyword typed "Climate" at run time: "climate" in a tweet does not
      find the topic as written, and does with the keywords lower-cased. */
  lemma CreatedKeywordCase(store: Store, id: nat)
    ensures id !in Matching(store[id := KeywordSet(["Climate"])], ["climate"])
    ensures id in Matching(store[id := KeywordSet(LowerAll(["Climate"]))], ["climate"])
  {
    var k := "Climate";
    assert !LowerCase(k) by {
      assert IsUpper(k[0]);
    }
    CreatedUpperNeverMatches(store, id, ["Climate"], ["climate"]);
    assert Lower(k) == "climate";
    assert LowerAll(["Climate"]) == ["climate"];
    assert ["climate"][0] in KeywordSet(LowerAll(["Climate"]));
  }

  /** With the keywords lower-cased on `created`, a topic is matched by any
      token equal to one of its keywords up to case, as for the topics
      loaded at start-up. */
  lemma CreatedLoweredMatches(store: Store, id: nat, keywords: seq<string>, tokens: seq<string>)
    requires exists i, j | 0 <= i < |tokens| && 0 <= j < |keywords| :: tokens[i] == Lower(keywords[j])
    ensures id in Matching(store[id := KeywordSet(LowerAll(keywords))], tokens)
  {
    var i, j :| 0 <= i < |tokens| && 0 <= j < |keywords| && tokens[i] == Lower(keywords[j]);
    assert LowerAll(keywords)[j] == tokens[i];
    assert AnyIn(tokens, KeywordSet(LowerAll(keywords)));
  }
}
