/**
 * `getConvos`: the list of conversation IDs whose history is to be cleared.
 *
 * Opening a direct-message channel with a user (`getConvoFromUser`, which calls
 * `getChannelIDFromUser`, which calls the platform's `OpenConversation`) is a
 * parameter: a resolver that maps a user ID to a channel ID or to an error.
 */
module Convos {
  import opened Wrappers
  import opened Slack
  import opened Config

  /** Opens (or reuses) the direct-message channel with a user. */
  type Resolver = string -> Result<string, PlatformError>

  /** The outcome of a resolution and the `Open` calls it made, in order. */
  datatype Resolution = Resolution(result: Result<seq<string>, PlatformError>, trace: seq<Event>)

  /** Resolve `users` in order, giving up at the first user whose channel cannot be opened. */
  function ResolveUsers(users: seq<string>, open: Resolver): Resolution
  {
    if users == [] then Resolution(Success([]), [])
    else
      match open(users[0])
      case Failure(e) => Resolution(Failure(e), [Open(users[0])])
      case Success(id) => Prepend([id], [Open(users[0])], ResolveUsers(users[1..], open))
  }

  /** `r` preceded by channels `ids` already resolved with the calls `calls`. */
  function Prepend(ids: seq<string>, calls: seq<Event>, r: Resolution): Resolution
  {
    Resolution(if r.result.Success? then Success(ids + r.result.value) else r.result, calls + r.trace)
  }

  lemma PrependNothing(r: Resolution)
    ensures Prepend([], [], r) == r
  {
    assert [] + r.trace == r.trace;
    if r.result.Success? {
      assert [] + r.result.value == r.result.value;
    }
  }

  lemma PrependPrepend(ids: seq<string>, calls: seq<Event>, ids': seq<string>, calls': seq<Event>, r: Resolution)
    ensures Prepend(ids, calls, Prepend(ids', calls', r)) == Prepend(ids + ids', calls + calls', r)
  {
    assert calls + (calls' + r.trace) == calls + calls' + r.trace;
    if r.result.Success? {
      assert ids + (ids' + r.result.value) == ids + ids' + r.result.value;
    }
  }

  /** The policy of `getConvos`: users are resolved only when no conversation is configured. */
  function Conversations(c: Config, open: Resolver): Resolution
  {
    if |c.convs| == 0 then ResolveUsers(c.users, open) else Resolution(Success([]), [])
  }

  /** One `Open` call per user, in the given order. */
  function Opens(users: seq<string>): (calls: seq<Event>)
    ensures |calls| == |users|
    ensures forall i :: 0 <= i < |users| ==> calls[i] == Open(users[i])
  {
    seq(|users|, i requires 0 <= i < |users| => Open(users[i]))
  }

  /** When every channel opens, there is one ID per user, the i-th being the channel of the i-th user. */
  lemma {:induction false} ResolveAllSucceed(users: seq<string>, open: Resolver)
    requires forall i :: 0 <= i < |users| ==> open(users[i]).Success?
    ensures ResolveUsers(users, open).result.Success?
    ensures |ResolveUsers(users, open).result.value| == |users|
    ensures forall i :: 0 <= i < |users| ==>
              ResolveUsers(users, open).result.value[i] == open(users[i]).value
    ensures ResolveUsers(users, open).trace == Opens(users)
  {
    if users != [] {
      var id := open(users[0]).value;
      var rest := ResolveUsers(users[1..], open);
      assert forall i :: 0 <= i < |users[1..]| ==> users[1..][i] == users[i + 1];
      ResolveAllSucceed(users[1..], open);
      assert ResolveUsers(users, open) == Prepend([id], [Open(users[0])], rest);
      assert Opens(users) == [Open(users[0])] + Opens(users[1..]);
      var ids := ResolveUsers(users, open).result.value;
      assert ids == [id] + rest.result.value;
      assert forall i :: 1 <= i < |users| ==> ids[i] == rest.result.value[i - 1];
    }
  }

  /** The first user whose channel cannot be opened ends the resolution with that error;
    * no later user is resolved. */
  lemma {:induction false} ResolveStopsAtFirstFailure(users: seq<string>, open: Resolver, k: nat)
    requires k < |users| && open(users[k]).Failure?
    requires forall j :: 0 <= j < k ==> open(users[j]).Success?
    ensures ResolveUsers(users, open) == Resolution(Failure(open(users[k]).error), Opens(users[..k + 1]))
  {
    if k > 0 {
      ResolveStopsAtFirstFailure(users[1..], open, k - 1);
      assert users[1..][..k] == users[1..k + 1];
      assert Opens(users[..k + 1]) == [Open(users[0])] + Opens(users[1..k + 1]);
    }
  }

  /** Resolution succeeds exactly when every user's channel opens. */
  lemma ResolveSucceedsIff(users: seq<string>, open: Resolver)
    ensures ResolveUsers(users, open).result.Success? <==>
            forall i :: 0 <= i < |users| ==> open(users[i]).Success?
  {
    if forall i :: 0 <= i < |users| ==> open(users[i]).Success? {
      ResolveAllSucceed(users, open);
    } else {
      var k := FirstFailure(users, open);
      ResolveStopsAtFirstFailure(users, open, k);
    }
  }

  /** The position of the first user whose channel does not open. */
  function FirstFailure(users: seq<string>, open: Resolver): (k: nat)
    requires exists i :: 0 <= i < |users| && open(users[i]).Failure?
    ensures k < |users| && open(users[k]).Failure?
    ensures forall j :: 0 <= j < k ==> open(users[j]).Success?
  {
    if open(users[0]).Failure? then 0
    else
      assert exists i :: 0 <= i < |users[1..]| && open(users[1..][i]).Failure? by {
        var i :| 0 <= i < |users| && open(users[i]).Failure?;
        assert users[1..][i - 1] == users[i];
      }
      1 + FirstFailure(users[1..], open)
  }

  /** `getConvos`: resolve the configured users, in order, unless conversations are configured,
    * in which case the result is empty and no channel is opened. */
  method GetConvos(c: Config, open: Resolver) returns (r: Result<seq<string>, PlatformError>, ghost trace: seq<Event>)
    ensures Resolution(r, trace) == Conversations(c, open)
    ensures |c.convs| > 0 ==> r == Success([]) && trace == []
  {
    var convs: seq<string> := [];
    trace := [];
    if |c.convs| == 0 {
      PrependNothing(ResolveUsers(c.users, open));
      for i := 0 to |c.users|
        invariant ResolveUsers(c.users, open) == Prepend(convs, trace, ResolveUsers(c.users[i..], open))
      {
        var u := c.users[i];
        var conversation := open(u);
        trace := trace + [Open(u)];
        if conversation.Failure? {
          return Failure(conversation.error), trace;
        }
        assert c.users[i..][1..] == c.users[i + 1..];
        PrependPrepend(convs, trace[..|trace| - 1], [conversation.value], [Open(u)], ResolveUsers(c.users[i + 1..], open));
        assert trace[..|trace| - 1] + [Open(u)] == trace;
        convs := convs + [conversation.value];
      }
      assert c.users[|c.users|..] == [];
      assert convs + [] == convs && trace + [] == trace;
    }
    return Success(convs), trace;
  }
}
