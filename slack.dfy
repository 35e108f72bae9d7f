/**
 * The boundary between the cleaner and the Slack platform.
 *
 * The program reaches Slack only through a client library whose behaviour is not
 * part of this model.  What the cleaner sees of it is represented by values:
 * an error carries its text (the only thing the cleaner inspects), a page of
 * history lists its messages together with the reply the platform gives when each
 * one is deleted, and a run of the program consumes a script of history replies,
 * one per history request.  Every platform call the cleaner makes, and every pause,
 * is recorded as an `Event`.
 */
module Slack {

  /** The substring by which the cleaner recognises a rate-limit error. */
  const RateLimitText: string := "slack rate limit exceeded"

  /** How long the cleaner pauses after a rate-limited delete, in seconds. */
  const RateLimitPause: nat := 30

  /** An error returned by a platform call; only its text is ever inspected. */
  datatype PlatformError = PlatformError(text: string)

  /** `sub` occurs in `s` starting at position `i`. */
  ghost predicate OccursAt(s: string, sub: string, i: int)
  {
    0 <= i && i + |sub| <= |s| && s[i..i + |sub|] == sub
  }

  /** Go's `strings.Contains`: `sub` occurs somewhere in `s` (the empty string occurs everywhere). */
  function Contains(s: string, sub: string): (found: bool)
    ensures found <==> exists i :: OccursAt(s, sub, i)
    decreases |s|
  {
    if |s| < |sub| then false
    else if s[..|sub|] == sub then assert OccursAt(s, sub, 0); true
    else
      var rest := Contains(s[1..], sub);
      assert !OccursAt(s, sub, 0);
      assert forall j :: OccursAt(s[1..], sub, j) ==> OccursAt(s, sub, j + 1);
      assert forall i :: OccursAt(s, sub, i) ==> OccursAt(s[1..], sub, i - 1);
      rest
  }

  /** A delete failed because of Slack's rate limit: its text mentions `RateLimitText`. */
  predicate IsRateLimit(e: PlatformError)
  {
    Contains(e.text, RateLimitText)
  }

  /** A message of a conversation's history; its timestamp is the key by which it is deleted. */
  datatype Message = Message(timestamp: string)

  /** What the platform answers to one `DeleteMessage` call. */
  datatype DeleteReply = DeleteOk | DeleteErr(err: PlatformError)

  /** A message as listed on a history page, with the answer its deletion will get. */
  datatype Item = Item(message: Message, reply: DeleteReply)

  /** One page of conversation history: its messages in page order and the `HasMore` flag. */
  datatype Page = Page(items: seq<Item>, hasMore: bool)

  /** What the platform answers to one `GetConversationHistory` call. */
  datatype HistoryReply = History(page: Page) | HistoryErr(err: PlatformError)

  /** The successive answers to the history requests of a run, in the order they are made. */
  type Script = seq<HistoryReply>

  /** A platform call made by the cleaner, or a pause. */
  datatype Event =
    | Open(user: string)                         // OpenConversation with one user
    | Fetch(channel: string)                     // GetConversationHistory of a channel
    | Delete(channel: string, timestamp: string) // DeleteMessage
    | Sleep(seconds: nat)                        // time.Sleep

  /** The last event of a non-empty trace. */
  function Last(trace: seq<Event>): Event
    requires trace != []
  {
    trace[|trace| - 1]
  }

  /** The number of history requests in a trace. */
  function Fetches(trace: seq<Event>): (n: nat)
    ensures n <= |trace|
    ensures n == 0 <==> forall i :: 0 <= i < |trace| ==> !trace[i].Fetch?
  {
    if trace == [] then 0
    else (if trace[0].Fetch? then 1 else 0) + Fetches(trace[1..])
  }

  /** The timestamps passed to `DeleteMessage` in a trace, in call order. */
  function Deleted(trace: seq<Event>): (stamps: seq<string>)
    ensures |stamps| <= |trace|
  {
    if trace == [] then []
    else (if trace[0].Delete? then [trace[0].timestamp] else []) + Deleted(trace[1..])
  }

  /** The number of pauses in a trace. */
  function Sleeps(trace: seq<Event>): (n: nat)
    ensures n <= |trace|
  {
    if trace == [] then 0
    else (if trace[0].Sleep? then 1 else 0) + Sleeps(trace[1..])
  }

  lemma {:induction false} SleepsAppend(a: seq<Event>, b: seq<Event>)
    ensures Sleeps(a + b) == Sleeps(a) + Sleeps(b)
  {
    if a != [] {
      assert (a + b)[1..] == a[1..] + b;
      SleepsAppend(a[1..], b);
    } else {
      assert a + b == b;
    }
  }

  lemma {:induction false} FetchesAppend(a: seq<Event>, b: seq<Event>)
    ensures Fetches(a + b) == Fetches(a) + Fetches(b)
  {
    if a != [] {
      assert (a + b)[1..] == a[1..] + b;
      FetchesAppend(a[1..], b);
    } else {
      assert a + b == b;
    }
  }

  lemma {:induction false} DeletedAppend(a: seq<Event>, b: seq<Event>)
    ensures Deleted(a + b) == Deleted(a) + Deleted(b)
  {
    if a != [] {
      assert (a + b)[1..] == a[1..] + b;
      DeletedAppend(a[1..], b);
    } else {
      assert a + b == b;
    }
  }
}
