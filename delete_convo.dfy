/**
 * `deleteConvo`: clear the history of one conversation.
 *
 * The loop asks the platform for a page of history, deletes every message on it in
 * page order, pauses after a rate-limited delete (and does not retry that message),
 * and gives up at any other error.  Its flag `cont` is set to the page's `HasMore`
 * and the loop runs while the flag is false, so a page that reports more history
 * ends the loop and a page that reports none leads to another request.  That is the
 * behaviour modelled here.  An empty page ends the loop successfully.
 *
 * The platform's answers come from a script (see module Slack); the model needs one
 * scripted answer per history request, and a run that asks for more than the script
 * holds ends with `ScriptExhausted`.
 */
module Cleaner {
  import opened Wrappers
  import opened Slack

  /** How a run ended: successfully, with the error it returns, or out of scripted answers. */
  datatype Outcome<+E> = Done | Failed(err: E) | ScriptExhausted

  /** A run: how it ended, the calls it made in order, and the unconsumed history answers. */
  datatype Run<+E> = Run(outcome: Outcome<E>, trace: seq<Event>, rest: Script)

  /** `r` preceded by the calls `calls`. */
  function Then<E>(calls: seq<Event>, r: Run<E>): Run<E>
  {
    Run(r.outcome, calls + r.trace, r.rest)
  }

  lemma ThenNothing<E>(r: Run<E>)
    ensures Then([], r) == r
  {
    assert [] + r.trace == r.trace;
  }

  lemma ThenThen<E>(calls: seq<Event>, calls': seq<Event>, r: Run<E>)
    ensures Then(calls, Then(calls', r)) == Then(calls + calls', r)
  {
    assert calls + (calls' + r.trace) == calls + calls' + r.trace;
  }

  /** The inner loop over one page: the error that stopped it, if any, and its calls and pauses. */
  datatype PageRun = PageRun(failure: Option<PlatformError>, trace: seq<Event>)

  function PageThen(calls: seq<Event>, p: PageRun): PageRun
  {
    PageRun(p.failure, calls + p.trace)
  }

  /** A delete error that is not a rate limit: the cleaner gives up on it. */
  predicate Fatal(reply: DeleteReply)
  {
    reply.DeleteErr? && !IsRateLimit(reply.err)
  }

  /** Delete the listed messages of a page in order. */
  function DeletePage(conv: string, items: seq<Item>): PageRun
  {
    if items == [] then PageRun(None, [])
    else
      var call := Delete(conv, items[0].message.timestamp);
      match items[0].reply
      case DeleteOk => PageThen([call], DeletePage(conv, items[1..]))
      case DeleteErr(e) =>
        if IsRateLimit(e) then PageThen([call, Sleep(RateLimitPause)], DeletePage(conv, items[1..]))
        else PageRun(Some(e), [call])
  }

  /** The loop of `deleteConvo`, one history request per iteration. */
  function DeleteHistory(conv: string, script: Script): Run<PlatformError>
    decreases |script|, 1
  {
    if script == [] then Run(ScriptExhausted, [], [])
    else
      match script[0]
      case HistoryErr(e) => Run(Failed(e), [Fetch(conv)], script[1..])
      case History(page) =>
        if page.items == [] then Run(Done, [Fetch(conv)], script[1..])
        else DeleteAfterFetch(conv, page, script[1..])
  }

  /** What follows the fetch of a non-empty page: its deletes, then either the end of the
    * run or the next request. */
  function DeleteAfterFetch(conv: string, page: Page, rest: Script): Run<PlatformError>
    decreases |rest| + 1, 0
  {
    var p := DeletePage(conv, page.items);
    if p.failure.Some? then Run(Failed(p.failure.value), [Fetch(conv)] + p.trace, rest)
    else if page.hasMore then Run(Done, [Fetch(conv)] + p.trace, rest)
    else Then([Fetch(conv)] + p.trace, DeleteHistory(conv, rest))
  }

  /** A run's first request when the script holds one, unfolded: the answer decides it. */
  lemma HistoryStep(conv: string, script: Script)
    requires script != []
    ensures script[0].HistoryErr? ==>
              DeleteHistory(conv, script) == Run(Failed(script[0].err), [Fetch(conv)], script[1..])
    ensures script[0].History? && script[0].page.items == [] ==>
              DeleteHistory(conv, script) == Run(Done, [Fetch(conv)], script[1..])
    ensures script[0].History? && script[0].page.items != [] ==>
              DeleteHistory(conv, script) == DeleteAfterFetch(conv, script[0].page, script[1..])
  {
  }

  /** The end of an iteration after a non-empty page, given what its inner loop did. */
  lemma AfterPage(conv: string, page: Page, rest: Script, failure: Option<PlatformError>, pageTrace: seq<Event>)
    requires PageRun(failure, pageTrace) == DeletePage(conv, page.items)
    ensures failure.Some? ==>
              DeleteAfterFetch(conv, page, rest) == Run(Failed(failure.value), [Fetch(conv)] + pageTrace, rest)
    ensures failure.None? && page.hasMore ==>
              DeleteAfterFetch(conv, page, rest) == Run(Done, [Fetch(conv)] + pageTrace, rest)
    ensures failure.None? && !page.hasMore ==>
              DeleteAfterFetch(conv, page, rest) == Then([Fetch(conv)] + pageTrace, DeleteHistory(conv, rest))
  {
  }

  /** The calls made for one listed message whose deletion does not end the page. */
  function ItemCalls(conv: string, item: Item): seq<Event>
    requires !Fatal(item.reply)
  {
    if item.reply.DeleteErr? then [Delete(conv, item.message.timestamp), Sleep(RateLimitPause)]
    else [Delete(conv, item.message.timestamp)]
  }

  lemma PageThenThen(calls: seq<Event>, calls': seq<Event>, p: PageRun)
    ensures PageThen(calls, PageThen(calls', p)) == PageThen(calls + calls', p)
  {
    assert calls + (calls' + p.trace) == calls + calls' + p.trace;
  }

  /** One step of the inner loop, unfolded. */
  lemma PageUnfold(conv: string, items: seq<Item>)
    requires items != []
    ensures Fatal(items[0].reply) ==>
              DeletePage(conv, items) == PageRun(Some(items[0].reply.err), [Delete(conv, items[0].message.timestamp)])
    ensures !Fatal(items[0].reply) ==>
              DeletePage(conv, items) == PageThen(ItemCalls(conv, items[0]), DeletePage(conv, items[1..]))
  {
  }

  /** The inner loop of `deleteConvo`: delete the messages of one page in page order. */
  method DeleteMessages(conv: string, items: seq<Item>)
    returns (failure: Option<PlatformError>, ghost trace: seq<Event>)
    ensures PageRun(failure, trace) == DeletePage(conv, items)
  {
    trace := [];
    assert [] + DeletePage(conv, items).trace == DeletePage(conv, items).trace;
    for i := 0 to |items|
      invariant DeletePage(conv, items) == PageThen(trace, DeletePage(conv, items[i..]))
    {
      var m := items[i];
      PageUnfold(conv, items[i..]);
      assert items[i..][0] == m && items[i..][1..] == items[i + 1..];
      ghost var before := trace;
      trace := trace + [Delete(conv, m.message.timestamp)];
      if m.reply.DeleteErr? {
        if IsRateLimit(m.reply.err) {
          trace := trace + [Sleep(RateLimitPause)];
        } else {
          return Some(m.reply.err), trace;
        }
      }
      assert trace == before + ItemCalls(conv, m);
      PageThenThen(before, ItemCalls(conv, m), DeletePage(conv, items[i + 1..]));
    }
    assert items[|items|..] == [];
    assert trace + [] == trace;
    failure := None;
  }

  /** `deleteConvo` with the platform's answers taken from `script`; also returns the answers
    * it did not consume. */
  method DeleteConvo(conv: string, script: Script)
    returns (outcome: Outcome<PlatformError>, rest: Script, ghost trace: seq<Event>)
    ensures Run(outcome, trace, rest) == DeleteHistory(conv, script)
  {
    rest := script;
    trace := [];
    ThenNothing(DeleteHistory(conv, script));
    var cont := false;
    while !cont
      invariant cont ==> DeleteHistory(conv, script) == Run(Done, trace, rest)
      invariant !cont ==> DeleteHistory(conv, script) == Then(trace, DeleteHistory(conv, rest))
      decreases |rest|
    {
      if rest == [] {
        assert DeleteHistory(conv, rest) == Run(ScriptExhausted, [], []);
        assert trace + [] == trace;
        outcome := ScriptExhausted;
        return;
      }
      ghost var remaining := rest;
      HistoryStep(conv, remaining);
      var hist := rest[0];
      rest := rest[1..];
      if hist.HistoryErr? {
        assert DeleteHistory(conv, remaining) == Run(Failed(hist.err), [Fetch(conv)], rest);
        outcome, trace := Failed(hist.err), trace + [Fetch(conv)];
        return;
      }
      var page := hist.page;
      if |page.items| == 0 {
        assert DeleteHistory(conv, remaining) == Run(Done, [Fetch(conv)], rest);
        trace := trace + [Fetch(conv)];
        break;
      }
      assert DeleteHistory(conv, remaining) == DeleteAfterFetch(conv, page, rest);
      var failure, pageTrace := DeleteMessages(conv, page.items);
      AfterPage(conv, page, rest, failure, pageTrace);
      ThenThen(trace, [Fetch(conv)] + pageTrace, DeleteHistory(conv, rest));
      trace := trace + ([Fetch(conv)] + pageTrace);
      if failure.Some? {
        outcome := Failed(failure.value);
        return;
      }
      cont := page.hasMore;
    }
    outcome := Done;
  }
}

/** What the delete loop promises, stated over its specification. */
module CleanerProperties {
  import opened Wrappers
  import opened Slack
  import opened Cleaner

  /** The timestamps of the listed messages, in page order. */
  function Stamps(items: seq<Item>): (stamps: seq<string>)
    ensures |stamps| == |items|
    ensures forall i :: 0 <= i < |items| ==> stamps[i] == items[i].message.timestamp
  {
    if items == [] then [] else [items[0].message.timestamp] + Stamps(items[1..])
  }

  /** The number of listed messages whose deletion is refused by the rate limit. */
  function RateLimited(items: seq<Item>): (n: nat)
    ensures n <= |items|
  {
    if items == [] then 0
    else (if items[0].reply.DeleteErr? && IsRateLimit(items[0].reply.err) then 1 else 0)
         + RateLimited(items[1..])
  }

  /** One step of the inner loop over a message that does not end it. */
  lemma PageStep(conv: string, items: seq<Item>)
    requires items != [] && !Fatal(items[0].reply)
    ensures DeletePage(conv, items) == PageThen(ItemCalls(conv, items[0]), DeletePage(conv, items[1..]))
    ensures Deleted(ItemCalls(conv, items[0])) == [items[0].message.timestamp]
    ensures Sleeps(ItemCalls(conv, items[0])) == RateLimited(items[..1])
    ensures Fetches(ItemCalls(conv, items[0])) == 0
  {
    PageUnfold(conv, items);
    var item := items[0];
    assert items[..1] == [item];
    if item.reply.DeleteErr? {
      assert IsRateLimit(item.reply.err);
    }
  }

  /** When no delete meets a non-rate-limit error, the page completes: every listed message is
    * deleted exactly once, in page order (a rate-limited one is not retried), with one pause
    * per rate-limited delete and no other request. */
  lemma {:induction false} PageDeletesAll(conv: string, items: seq<Item>)
    requires forall i :: 0 <= i < |items| ==> !Fatal(items[i].reply)
    ensures DeletePage(conv, items).failure == None
    ensures Deleted(DeletePage(conv, items).trace) == Stamps(items)
    ensures Sleeps(DeletePage(conv, items).trace) == RateLimited(items)
  {
    if items != [] {
      var head := ItemCalls(conv, items[0]);
      var tail := DeletePage(conv, items[1..]).trace;
      PageStep(conv, items);
      PageDeletesAll(conv, items[1..]);
      DeletedAppend(head, tail);
      SleepsAppend(head, tail);
      assert Stamps(items) == [items[0].message.timestamp] + Stamps(items[1..]);
    }
  }

  /** The first delete that meets a non-rate-limit error ends the page with that error and is the
    * last call made: the messages after it are never deleted. */
  lemma {:induction false} PageStopsAtFatal(conv: string, items: seq<Item>, k: nat)
    requires k < |items| && Fatal(items[k].reply)
    requires forall j :: 0 <= j < k ==> !Fatal(items[j].reply)
    ensures DeletePage(conv, items).failure == Some(items[k].reply.err)
    ensures Deleted(DeletePage(conv, items).trace) == Stamps(items[..k + 1])
    ensures DeletePage(conv, items).trace != []
    ensures Last(DeletePage(conv, items).trace) == Delete(conv, items[k].message.timestamp)
  {
    PageUnfold(conv, items);
    if k == 0 {
      assert Stamps(items[..1]) == [items[0].message.timestamp];
    } else {
      PageStopsAtFatal(conv, items[1..], k - 1);
      PageStopsAtFatalStep(conv, items, k);
    }
  }

  lemma PageStopsAtFatalStep(conv: string, items: seq<Item>, k: nat)
    requires 0 < k < |items| && !Fatal(items[0].reply)
    requires Deleted(DeletePage(conv, items[1..]).trace) == Stamps(items[1..][..k])
    requires DeletePage(conv, items[1..]).trace != []
    ensures Deleted(DeletePage(conv, items).trace) == Stamps(items[..k + 1])
    ensures DeletePage(conv, items).trace != []
    ensures Last(DeletePage(conv, items).trace) == Last(DeletePage(conv, items[1..]).trace)
  {
    var head := ItemCalls(conv, items[0]);
    var tail := DeletePage(conv, items[1..]).trace;
    PageStep(conv, items);
    DeletedAppend(head, tail);
    assert DeletePage(conv, items).trace == head + tail;
    assert Last(head + tail) == Last(tail);
    var prefix := items[..k + 1];
    assert prefix[1..] == items[1..][..k];
    assert Stamps(prefix) == [items[0].message.timestamp] + Stamps(prefix[1..]);
  }

  /** Deleting `a + b`, when no message of `a` ends the page, makes the calls for `a` and then
    * runs on `b`. */
  lemma {:induction false} PageAppend(conv: string, a: seq<Item>, b: seq<Item>)
    requires forall i :: 0 <= i < |a| ==> !Fatal(a[i].reply)
    ensures DeletePage(conv, a + b) == PageThen(DeletePage(conv, a).trace, DeletePage(conv, b))
  {
    if a == [] {
      assert a + b == b;
      assert [] + DeletePage(conv, b).trace == DeletePage(conv, b).trace;
    } else {
      assert (a + b)[0] == a[0] && (a + b)[1..] == a[1..] + b;
      PageAppend(conv, a[1..], b);
      PageUnfold(conv, a + b);
      PageUnfold(conv, a);
      PageThenThen(ItemCalls(conv, a[0]), DeletePage(conv, a[1..]).trace, DeletePage(conv, b));
    }
  }

  /** The calls for a non-empty page start with the delete of its first message. */
  lemma PageStartsWithDelete(conv: string, items: seq<Item>)
    requires items != []
    ensures DeletePage(conv, items).trace != []
    ensures DeletePage(conv, items).trace[0] == Delete(conv, items[0].message.timestamp)
  {
    PageUnfold(conv, items);
  }

  /** Up to the first message whose deletion ends the page, the k-th message is deleted right after
    * the calls for the messages before it, and the very next call is a 30-second pause exactly
    * when that delete was refused by the rate limit. */
  lemma PauseFollowsRateLimitedDelete(conv: string, items: seq<Item>, k: nat)
    requires k < |items|
    requires forall j :: 0 <= j < k ==> !Fatal(items[j].reply)
    ensures |DeletePage(conv, items[..k]).trace| < |DeletePage(conv, items).trace|
    ensures DeletePage(conv, items).trace[|DeletePage(conv, items[..k]).trace|]
         == Delete(conv, items[k].message.timestamp)
    ensures (|DeletePage(conv, items[..k]).trace| + 1 < |DeletePage(conv, items).trace| &&
             DeletePage(conv, items).trace[|DeletePage(conv, items[..k]).trace| + 1] == Sleep(RateLimitPause))
        <==> items[k].reply.DeleteErr? && IsRateLimit(items[k].reply.err)
  {
    var pre, post := items[..k], items[k..];
    assert items == pre + post;
    assert post[0] == items[k] && post[1..] == items[k + 1..];
    PageAppend(conv, pre, post);
    PageUnfold(conv, post);
    var t := DeletePage(conv, items).trace;
    var p := |DeletePage(conv, pre).trace|;
    var u := DeletePage(conv, post).trace;
    assert t == DeletePage(conv, pre).trace + u;
    assert t[p] == u[0];
    if !Fatal(items[k].reply) {
      var tail := DeletePage(conv, items[k + 1..]).trace;
      assert u == ItemCalls(conv, items[k]) + tail;
      if !items[k].reply.DeleteErr? && p + 1 < |t| {
        PageStartsWithDelete(conv, items[k + 1..]);
        assert t[p + 1] == tail[0];
      }
    }
  }

  /** Every pause in a page's calls comes directly after a delete. */
  lemma {:induction false} PauseOnlyAfterDelete(conv: string, items: seq<Item>)
    ensures forall j :: 0 <= j < |DeletePage(conv, items).trace| && DeletePage(conv, items).trace[j].Sleep? ==>
              0 < j && DeletePage(conv, items).trace[j - 1].Delete?
  {
    if items != [] {
      PageUnfold(conv, items);
      if !Fatal(items[0].reply) {
        PauseOnlyAfterDelete(conv, items[1..]);
        var head := ItemCalls(conv, items[0]);
        var tail := DeletePage(conv, items[1..]).trace;
        var t := head + tail;
        assert DeletePage(conv, items).trace == t;
        forall j | 0 <= j < |t| && t[j].Sleep?
          ensures 0 < j && t[j - 1].Delete?
        {
          if j > |head| {
            assert t[j] == tail[j - |head|] && t[j - 1] == tail[j - |head| - 1];
          }
        }
      }
    }
  }

  /** The inner loop never requests history. */
  lemma {:induction false} PageMakesNoRequest(conv: string, items: seq<Item>)
    ensures Fetches(DeletePage(conv, items).trace) == 0
  {
    if items != [] && !Fatal(items[0].reply) {
      var head := ItemCalls(conv, items[0]);
      var tail := DeletePage(conv, items[1..]).trace;
      PageStep(conv, items);
      PageMakesNoRequest(conv, items[1..]);
      FetchesAppend(head, tail);
    }
  }

  /** The page completes exactly when no delete meets a non-rate-limit error. */
  lemma PageCompletesIff(conv: string, items: seq<Item>)
    ensures DeletePage(conv, items).failure == None <==>
            forall i :: 0 <= i < |items| ==> !Fatal(items[i].reply)
  {
    if forall i :: 0 <= i < |items| ==> !Fatal(items[i].reply) {
      PageDeletesAll(conv, items);
    } else {
      var k := FirstFatal(items);
      PageStopsAtFatal(conv, items, k);
    }
  }

  /** The position of the first listed message whose deletion meets a non-rate-limit error. */
  function FirstFatal(items: seq<Item>): (k: nat)
    requires exists i :: 0 <= i < |items| && Fatal(items[i].reply)
    ensures k < |items| && Fatal(items[k].reply)
    ensures forall j :: 0 <= j < k ==> !Fatal(items[j].reply)
  {
    if Fatal(items[0].reply) then 0
    else
      assert exists i :: 0 <= i < |items[1..]| && Fatal(items[1..][i].reply) by {
        var i :| 0 <= i < |items| && Fatal(items[i].reply);
        assert items[1..][i - 1] == items[i];
      }
      1 + FirstFatal(items[1..])
  }

  /** A run consumes one scripted answer per history request, from the front of the script. */
  lemma {:induction false} HistoryConsumes(conv: string, script: Script)
    ensures |DeleteHistory(conv, script).rest| <= |script|
    ensures script != [] ==> |DeleteHistory(conv, script).rest| < |script|
    ensures DeleteHistory(conv, script).rest == script[|script| - |DeleteHistory(conv, script).rest|..]
    ensures Fetches(DeleteHistory(conv, script).trace) == |script| - |DeleteHistory(conv, script).rest|
  {
    var r := DeleteHistory(conv, script);
    if script != [] {
      HistoryStep(conv, script);
      assert Fetches([Fetch(conv)]) == 1;
      if script[0].History? && script[0].page.items != [] {
        var page := script[0].page;
        var p := DeletePage(conv, page.items);
        AfterPage(conv, page, script[1..], p.failure, p.trace);
        PageMakesNoRequest(conv, page.items);
        FetchesAppend([Fetch(conv)], p.trace);
        if p.failure.None? && !page.hasMore {
          var next := DeleteHistory(conv, script[1..]);
          HistoryConsumes(conv, script[1..]);
          FetchesAppend([Fetch(conv)] + p.trace, next.trace);
          assert r == Then([Fetch(conv)] + p.trace, next);
          assert script[1..][|script| - 1 - |next.rest|..] == script[|script| - |next.rest|..];
        }
      }
    }
  }

  /** The calls a run can make: requests and deletes on its own channel, and 30-second pauses. */
  predicate OnChannel(conv: string, e: Event)
  {
    match e
    case Open(_) => false
    case Fetch(c) => c == conv
    case Delete(c, _) => c == conv
    case Sleep(seconds) => seconds == RateLimitPause
  }

  lemma {:induction false} PageOnChannel(conv: string, items: seq<Item>)
    ensures forall i :: 0 <= i < |DeletePage(conv, items).trace| ==>
              OnChannel(conv, DeletePage(conv, items).trace[i])
  {
    if items != [] && !Fatal(items[0].reply) {
      PageStep(conv, items);
      PageOnChannel(conv, items[1..]);
    }
  }

  /** Every call of `deleteConvo` concerns the conversation it was given; `DeleteMessage` is
    * always called with that channel. */
  lemma {:induction false} HistoryOnChannel(conv: string, script: Script)
    ensures forall i :: 0 <= i < |DeleteHistory(conv, script).trace| ==>
              OnChannel(conv, DeleteHistory(conv, script).trace[i])
  {
    if script != [] {
      HistoryStep(conv, script);
      if script[0].History? && script[0].page.items != [] {
        PageOnChannel(conv, script[0].page.items);
        HistoryOnChannel(conv, script[1..]);
      }
    }
  }

  /** `last` is the call whose answer `answer` carries the error `e` that ends a run. */
  predicate FailingCall(conv: string, answer: HistoryReply, last: Event, e: PlatformError)
  {
    || (last == Fetch(conv) && answer == HistoryErr(e))
    || (last.Delete? && last.channel == conv && answer.History? &&
        exists i :: 0 <= i < |answer.page.items| && answer.page.items[i] == Item(Message(last.timestamp), DeleteErr(e)) &&
                    !IsRateLimit(e))
  }

  /** A page that fails ends at the delete whose reply carried the error. */
  lemma PageFailureIsFailingCall(conv: string, page: Page)
    requires DeletePage(conv, page.items).failure.Some?
    ensures DeletePage(conv, page.items).trace != []
    ensures FailingCall(conv, History(page), Last(DeletePage(conv, page.items).trace),
                        DeletePage(conv, page.items).failure.value)
  {
    var items := page.items;
    var p := DeletePage(conv, items);
    PageCompletesIff(conv, items);
    var k := FirstFatal(items);
    PageStopsAtFatal(conv, items, k);
    assert items[k] == Item(Message(Last(p.trace).timestamp), DeleteErr(p.failure.value));
  }

  /** A run that fails returns the error of its last call, a history request or a delete that
    * met a non-rate-limit error on the last page fetched; nothing is called after it. */
  lemma {:induction false} FailureEndsAtFailingCall(conv: string, script: Script)
    requires DeleteHistory(conv, script).outcome.Failed?
    ensures |DeleteHistory(conv, script).rest| < |script|
    ensures DeleteHistory(conv, script).trace != []
    ensures FailingCall(conv, script[|script| - |DeleteHistory(conv, script).rest| - 1],
                        Last(DeleteHistory(conv, script).trace), DeleteHistory(conv, script).outcome.err)
  {
    HistoryStep(conv, script);
    if script[0].HistoryErr? {
      assert DeleteHistory(conv, script) == Run(Failed(script[0].err), [Fetch(conv)], script[1..]);
    } else if DeletePage(conv, script[0].page.items).failure.Some? {
      FailureOnFetchedPage(conv, script);
    } else {
      FailureEndsAtFailingCall(conv, script[1..]);
      FailureOnLaterPage(conv, script);
    }
  }

  /** The case where the deletes of the first page fetched fail. */
  lemma FailureOnFetchedPage(conv: string, script: Script)
    requires script != [] && script[0].History?
    requires DeletePage(conv, script[0].page.items).failure.Some?
    ensures DeleteHistory(conv, script).rest == script[1..]
    ensures DeleteHistory(conv, script).outcome == Failed(DeletePage(conv, script[0].page.items).failure.value)
    ensures DeleteHistory(conv, script).trace != []
    ensures FailingCall(conv, script[0], Last(DeleteHistory(conv, script).trace),
                        DeleteHistory(conv, script).outcome.err)
  {
    var page := script[0].page;
    var p := DeletePage(conv, page.items);
    HistoryStep(conv, script);
    AfterPage(conv, page, script[1..], p.failure, p.trace);
    PageFailureIsFailingCall(conv, page);
    assert Last([Fetch(conv)] + p.trace) == Last(p.trace);
  }

  /** The case where the first page completes and the failure comes later. */
  lemma FailureOnLaterPage(conv: string, script: Script)
    requires script != [] && script[0].History? && script[0].page.items != []
    requires DeletePage(conv, script[0].page.items).failure.None?
    requires DeleteHistory(conv, script).outcome.Failed?
    requires |DeleteHistory(conv, script[1..]).rest| < |script| - 1
    requires DeleteHistory(conv, script[1..]).trace != []
    ensures DeleteHistory(conv, script) ==
              Then([Fetch(conv)] + DeletePage(conv, script[0].page.items).trace, DeleteHistory(conv, script[1..]))
    ensures Last(DeleteHistory(conv, script).trace) == Last(DeleteHistory(conv, script[1..]).trace)
    ensures script[1..][|script| - 1 - |DeleteHistory(conv, script[1..]).rest| - 1]
         == script[|script| - |DeleteHistory(conv, script[1..]).rest| - 1]
  {
    var page := script[0].page;
    var p := DeletePage(conv, page.items);
    HistoryStep(conv, script);
    AfterPage(conv, page, script[1..], p.failure, p.trace);
  }

  /** After a non-empty page whose deletes all go through, the loop requests history again
    * exactly when the page reports NO more history (and the script holds another answer);
    * a page that reports more history ends the run successfully. */
  lemma {:induction false} RefetchesIffNoMore(conv: string, script: Script)
    requires script != [] && script[0].History? && script[0].page.items != []
    requires forall i :: 0 <= i < |script[0].page.items| ==> !Fatal(script[0].page.items[i].reply)
    ensures script[0].page.hasMore ==>
              DeleteHistory(conv, script).outcome == Done && DeleteHistory(conv, script).rest == script[1..]
    ensures Fetches(DeleteHistory(conv, script).trace) > 1 <==> !script[0].page.hasMore && |script| > 1
  {
    var items := script[0].page.items;
    var pt := DeletePage(conv, items).trace;
    HistoryStep(conv, script);
    PageDeletesAll(conv, items);
    PageMakesNoRequest(conv, items);
    FetchesAppend([Fetch(conv)], pt);
    assert Fetches([Fetch(conv)]) == 1;
    if !script[0].page.hasMore {
      var next := DeleteHistory(conv, script[1..]);
      FetchesAppend([Fetch(conv)] + pt, next.trace);
      HistoryConsumes(conv, script[1..]);
    }
  }

  /** Two messages that delete cleanly, then an empty page: two deletes, in order, and success. */
  lemma TwoMessagesThenEmptyPage(conv: string, a: string, b: string, more: bool)
    ensures DeleteHistory(conv, [History(Page([Item(Message(a), DeleteOk), Item(Message(b), DeleteOk)], false)),
                                 History(Page([], more))])
         == Run(Done, [Fetch(conv), Delete(conv, a), Delete(conv, b), Fetch(conv)], [])
  {
    var items := [Item(Message(a), DeleteOk), Item(Message(b), DeleteOk)];
    var script := [History(Page(items, false)), History(Page([], more))];
    assert items[1..] == [items[1]] && items[1..][1..] == [];
    assert DeletePage(conv, items[1..]) == PageRun(None, [Delete(conv, b)]);
    assert DeletePage(conv, items) == PageRun(None, [Delete(conv, a)] + [Delete(conv, b)]);
    assert script[1..] == [History(Page([], more))];
    assert DeleteHistory(conv, script[1..]) == Run(Done, [Fetch(conv)], []);
    HistoryStep(conv, script);
  }

  /** The same first page reporting more history: the same two deletes and success, but the
    * empty page is never requested. */
  lemma TwoMessagesWithMoreHistory(conv: string, a: string, b: string, more: bool)
    ensures DeleteHistory(conv, [History(Page([Item(Message(a), DeleteOk), Item(Message(b), DeleteOk)], true)),
                                 History(Page([], more))])
         == Run(Done, [Fetch(conv), Delete(conv, a), Delete(conv, b)], [History(Page([], more))])
  {
    var items := [Item(Message(a), DeleteOk), Item(Message(b), DeleteOk)];
    var script := [History(Page(items, true)), History(Page([], more))];
    assert items[1..] == [items[1]] && items[1..][1..] == [];
    assert DeletePage(conv, items[1..]) == PageRun(None, [Delete(conv, b)]);
    assert DeletePage(conv, items) == PageRun(None, [Delete(conv, a)] + [Delete(conv, b)]);
    assert script[1..] == [History(Page([], more))];
    HistoryStep(conv, script);
  }

  /** A rate-limited delete is followed by a 30-second pause and the next message; no error results. */
  lemma RateLimitedDeleteIsSkipped(conv: string, a: string, b: string)
    ensures DeleteHistory(conv, [History(Page([Item(Message(a), DeleteErr(PlatformError(RateLimitText))),
                                               Item(Message(b), DeleteOk)], false)),
                                 History(Page([], false))])
         == Run(Done, [Fetch(conv), Delete(conv, a), Sleep(30), Delete(conv, b), Fetch(conv)], [])
  {
    assert IsRateLimit(PlatformError(RateLimitText)) by {
      assert OccursAt(RateLimitText, RateLimitText, 0);
    }
    var items := [Item(Message(a), DeleteErr(PlatformError(RateLimitText))), Item(Message(b), DeleteOk)];
    var script := [History(Page(items, false)), History(Page([], false))];
    assert items[1..] == [items[1]] && items[1..][1..] == [];
    assert DeletePage(conv, items[1..]) == PageRun(None, [Delete(conv, b)]);
    assert DeletePage(conv, items) == PageRun(None, [Delete(conv, a), Sleep(30)] + [Delete(conv, b)]);
    assert script[1..] == [History(Page([], false))];
    assert DeleteHistory(conv, script[1..]) == Run(Done, [Fetch(conv)], []);
    HistoryStep(conv, script);
  }

  /** A delete error without the rate-limit text is returned at once; later messages are left. */
  lemma FatalDeleteStops(conv: string, a: string, b: string, e: PlatformError, later: Script)
    requires !IsRateLimit(e)
    ensures DeleteHistory(conv, [History(Page([Item(Message(a), DeleteErr(e)), Item(Message(b), DeleteOk)], false))] + later)
         == Run(Failed(e), [Fetch(conv), Delete(conv, a)], later)
  {
  }

  /** A page that reports more history ends the loop: the next page is never requested. */
  lemma MoreHistoryEndsLoop(conv: string, a: string, next: HistoryReply)
    ensures DeleteHistory(conv, [History(Page([Item(Message(a), DeleteOk)], true)), next])
         == Run(Done, [Fetch(conv), Delete(conv, a)], [next])
  {
    var items := [Item(Message(a), DeleteOk)];
    var script := [History(Page(items, true)), next];
    assert items[1..] == [];
    assert DeletePage(conv, items) == PageRun(None, [Delete(conv, a)]);
    assert script[1..] == [next];
    HistoryStep(conv, script);
  }
}
