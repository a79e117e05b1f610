/** The REST helpers of server/services/twitter/index.js: cursor-driven
    paging (`getUsingCursor`) and the defaults of `listMembers`. Seeding,
    the broadcast, the tweet handler and `internals.transform` of the same
    file repeat server/services/twitter/stream.js and transform.js and are
    the members of `Stream` and `Transform`. */
module TwitterIndex {
  import opened Js

  /** A request parameter value. */
  type Param = Value<()>

  /** What a `GET` of a cursored endpoint answers: one page, with the items
      under the requested property and `next_cursor_str`, or a failure. */
  datatype Response<T> = Page(items: seq<T>, nextCursor: string) | Failed

  /** How paging ends: with every page's items, with the first failure, or
      still waiting on a request the given responses do not answer. */
  datatype Drained<T> = Done(items: seq<T>) | Error | Waiting

  /** The request parameters object, which paging overwrites in place. */
  class Params {
    var fields: map<string, Param>

    constructor (fields: map<string, Param>)
      ensures this.fields == fields
    {
      this.fields := fields;
    }
  }

  /** The index of the first response that ends paging: a failure or a
      page whose next cursor is `'0'`. */
  function FirstStop<T>(responses: seq<Response<T>>): (r: Option<nat>)
    ensures r.Some? ==> r.value < |responses| && Stops(responses[r.value])
    ensures r.Some? ==> forall j | 0 <= j < r.value :: !Stops(responses[j])
    ensures r.None? ==> forall j | 0 <= j < |responses| :: !Stops(responses[j])
  {
    if responses == [] then None
    else if Stops(responses[0]) then Some(0)
    else match FirstStop(responses[1..])
         case None => None
         case Some(k) => Some(k + 1)
  }

  /** The first stopping response is the one `FirstStop` finds. */
  lemma {:induction false} FirstStopIs<T>(responses: seq<Response<T>>, k: nat)
    requires k < |responses| && Stops(responses[k])
    requires forall j | 0 <= j < k :: !Stops(responses[j])
    ensures FirstStop(responses) == Some(k)
  {
    if k > 0 {
      FirstStopIs(responses[1..], k - 1);
    }
  }

  predicate Stops<T>(r: Response<T>)
  {
    r.Failed? || r.nextCursor == "0"
  }

  /** The items of the pages, in page order. */
  function Items<T>(pages: seq<Response<T>>): seq<T>
  {
    if pages == [] then []
    else Items(pages[..|pages| - 1]) + (if pages[|pages| - 1].Page? then pages[|pages| - 1].items else [])
  }

  /** What `getUsingCursor` settles to when the i-th request is answered
      by `responses[i]`. */
  function Drain<T>(responses: seq<Response<T>>): Drained<T>
  {
    match FirstStop(responses)
    case None => Waiting
    case Some(k) => if responses[k].Failed? then Error else Done(Items(responses[..k + 1]))
  }

  /** The parameters of the (i+1)-th request: the caller's, with `cursor`
      set to the i-th page's next cursor from the second request on. */
  function RequestParams<T>(init: map<string, Param>, responses: seq<Response<T>>, i: nat): map<string, Param>
    requires i <= |responses|
    requires forall j | 0 <= j < i :: responses[j].Page?
  {
    if i == 0 then init else init["cursor" := Str(responses[i - 1].nextCursor)]
  }

  /** `getUsingCursor(path, params, prop)`: `responses[i]` answers the i-th
      request. Every page's items are appended to the result, paging stops
      at the first page whose next cursor is `'0'`, and each later request
      carries the previous page's next cursor in `params.cursor`, written
      into the caller's object. `sent` is the parameters of each request. */
  method GetUsingCursor<T>(responses: seq<Response<T>>, params: Params) returns (r: Drained<T>, sent: seq<map<string, Param>>)
    modifies params
    ensures r == Drain(responses)
    ensures |sent| == (match FirstStop(responses) case Some(k) => k + 1 case None => |responses| + 1)
    ensures forall j | 0 <= j < |sent| :: j <= |responses| && (forall i | 0 <= i < j :: responses[i].Page?)
                                          && sent[j] == RequestParams(old(params.fields), responses, j)
    ensures params.fields == RequestParams(old(params.fields), responses, |sent| - 1)
  {
    ghost var init := params.fields;
    var data: seq<T> := [];
    var i := 0;
    sent := [params.fields];
    while i < |responses|
      invariant 0 <= i <= |responses|
      invariant forall j | 0 <= j < i :: !Stops(responses[j])
      invariant data == Items(responses[..i])
      invariant |sent| == i + 1
      invariant forall j | 0 <= j < |sent| :: sent[j] == RequestParams(init, responses, j)
      invariant params.fields == RequestParams(init, responses, i)
    {
      if responses[i].Failed? {
        FirstStopIs(responses, i);
        return Error, sent;
      }
      assert responses[..i + 1] == responses[..i] + [responses[i]];
      data := data + responses[i].items;
      if responses[i].nextCursor == "0" {
        FirstStopIs(responses, i);
        return Done(data), sent;
      }
      params.fields := params.fields["cursor" := Str(responses[i].nextCursor)];
      sent := sent + [params.fields];
      i := i + 1;
    }
    r := Waiting;
  }

  /** Responses after the first stopping one are never asked for: appending
      more changes nothing. */
  lemma DrainIgnoresLater<T>(responses: seq<Response<T>>, more: seq<Response<T>>)
    requires FirstStop(responses).Some?
    ensures Drain(responses + more) == Drain(responses)
  {
    var k := FirstStop(responses).value;
    var all := responses + more;
    assert all[k] == responses[k];
    assert forall j | 0 <= j < k :: all[j] == responses[j];
    FirstStopIs(all, k);
    assert all[..k + 1] == responses[..k + 1];
  }

  /** Paging ends with all items of the pages up to and including the
      first page whose next cursor is `'0'`, page by page in order. */
  lemma DrainPages<T>(pages: seq<seq<T>>, cursors: seq<string>)
    requires |pages| == |cursors| > 0
    requires cursors[|cursors| - 1] == "0"
    requires forall j | 0 <= j < |cursors| - 1 :: cursors[j] != "0"
    ensures Drain(seq(|pages|, i requires 0 <= i < |pages| => Page(pages[i], cursors[i])))
            == Done(Concat(pages))
  {
    var rs := seq(|pages|, i requires 0 <= i < |pages| => Page(pages[i], cursors[i]));
    FirstStopIs(rs, |rs| - 1);
    assert rs[..|rs|] == rs;
    ItemsOfPages(pages, cursors);
  }

  function Concat<T>(pages: seq<seq<T>>): seq<T>
  {
    if pages == [] then [] else Concat(pages[..|pages| - 1]) + pages[|pages| - 1]
  }

  lemma {:induction false} ItemsOfPages<T>(pages: seq<seq<T>>, cursors: seq<string>)
    requires |pages| == |cursors|
    ensures Items(seq(|pages|, i requires 0 <= i < |pages| => Page(pages[i], cursors[i]))) == Concat(pages)
    decreases |pages|
  {
    if pages != [] {
      var n := |pages| - 1;
      var rs := seq(|pages|, i requires 0 <= i < |pages| => Page(pages[i], cursors[i]));
      assert rs[..n] == seq(n, i requires 0 <= i < n => Page(pages[..n][i], cursors[..n][i]));
      ItemsOfPages(pages[..n], cursors[..n]);
    }
  }

  /** `Object.assign({ count: 50 }, opts)`: `count` is 50 unless the caller
      gave one; every other option is the caller's. */
  function ListMembersParams(opts: map<string, Param>): (r: map<string, Param>)
    ensures "count" in r && r["count"] == (if "count" in opts then opts["count"] else Num(50))
    ensures forall k | k != "count" :: (k in r <==> k in opts) && (k in r ==> r[k] == opts[k])
  {
    map["count" := Num(50)] + opts
  }

  /** `listMembers(opts)`: the members of the list, paged with a fresh
      parameters object, so the caller's options are not written to. */
  method ListMembers<T>(opts: map<string, Param>, responses: seq<Response<T>>) returns (r: Drained<T>)
    ensures r == Drain(responses)
  {
    var params := new Params(ListMembersParams(opts));
    var sent;
    r, sent := GetUsingCursor(responses, params);
  }
}
