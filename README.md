# Slack DM cleaner, modelled in Dafny

The cleaner is a command-line tool that deletes the direct-message history between a
Slack bot and a set of users. It reads a YAML settings file (`apitoken`, `conversation`,
`userid`). It validates the settings and opens a direct-message channel with each user.
Then it pages through each channel's history and deletes every message. When a delete
hits Slack's rate limit, it pauses for 30 seconds.

This project models the decision logic of `main.go`. The Slack client is not modelled.
Its place is taken by plain inputs:

- Opening a channel (`getConvoFromUser` / `getChannelIDFromUser` / `OpenConversation`) is
  a resolver function from a user ID to a channel ID or an error.
- History requests are answered from a script: one `HistoryReply` per request, in the order
  the requests are made. The whole run shares one script.
- Each message on a scripted page carries the reply its `DeleteMessage` call gets.
- Every platform call and every pause is recorded in a ghost trace of `Event`s:
  `Open`, `Fetch`, `Delete` and `Sleep(30)`.

Modules:

- `Wrappers` (wrappers.dfy): `Option` and `Result`.
- `Slack` (slack.dfy): the platform boundary. It holds the error text test
  (`strings.Contains` with `"slack rate limit exceeded"`), the page and reply types, the
  events, and counting functions over traces.
- `Config` (config.dfy): the settings and `validateYmlFile`.
- `Convos` (convos.dfy): `getConvos`. `ResolveUsers` and `Conversations` are its
  specification functions. The method `GetConvos` is the loop, proved equal to them.
- `Cleaner` (delete_convo.dfy): `deleteConvo`. `DeletePage` specifies the inner loop over
  a page and `DeleteHistory` the outer loop. The methods `DeleteMessages` and `DeleteConvo`
  are the loops, proved equal to them.
- `CleanerProperties` (delete_convo.dfy): what the delete loop promises, proved over
  `DeletePage` and `DeleteHistory`.
- `Start` (start.dfy): `start` after the file is parsed. `DeleteAll` specifies its loop over
  conversations and `StartRun` the whole run. The method `Start` is proved equal to `StartRun`.

Two behaviours of the code are modelled as written, although they look unintended:

- `getConvos` resolves users only when no conversation is configured. When conversations
  are configured it returns an empty list, so the run deletes nothing and succeeds.
  Configured conversations are never cleared.
- The delete loop runs `for !cont` with `cont = hist.HasMore`. A page that reports more
  history therefore ends the loop with success. A non-empty page that reports no more
  history leads to another request.

A natural reading of the tool is that the loop goes on while more pages remain. The model
follows the code instead. A page `[m1, m2]` followed by an empty page gives the two deletes
and success either way. What `HasMore` decides is whether the second request is made: it is
made only when the first page reports no more history (`TwoMessagesThenEmptyPage`,
`TwoMessagesWithMoreHistory`, `MoreHistoryEndsLoop`).

## Model

| member | source | states |
|---|---|---|
| `Config.ValidateConfig` | main.go:152-160 | An empty token is refused with `InvalidToken` whatever the lists hold. With a token, the config is refused (`NoTarget`) exactly when both the user and conversation lists are empty. Otherwise the same config is returned unchanged. Success holds exactly when the config is well formed. |
| `Slack.Contains` | main.go:103 | `strings.Contains`: true exactly when the substring occurs at some position of the text. `Slack.IsRateLimit` applies it to a delete error's text and `"slack rate limit exceeded"`. |
| `Convos.GetConvos` | main.go:64-82 | The loop's result and `Open` calls equal the `getConvos` policy `Conversations`. With conversations configured it returns an empty list and opens no channel. |
| `Convos.ResolveAllSucceed` | main.go:70-78 | `Convos.ResolveUsers` is the loop over users. When every channel opens, resolution succeeds with one ID per user. The i-th ID is the channel of the i-th user, and the users are opened once each, in order. |
| `Convos.ResolveStopsAtFirstFailure` | main.go:72-75 | The first user whose channel fails to open ends resolution with that error. Only the users up to and including it were opened. |
| `Convos.ResolveSucceedsIff` | main.go:70-78 | Resolution succeeds if and only if every user's channel opens. |
| `Cleaner.DeleteMessages` | main.go:99-111 | The inner loop's error and calls equal `DeletePage`: deletes in page order, a pause after each rate-limited delete, a stop at any other delete error. |
| `Cleaner.DeleteConvo` | main.go:85-115 | The outer loop's outcome, calls and unconsumed answers equal `DeleteHistory`. That covers the fetch error, the empty page, the inverted `cont` flag, and the error from the page. |
| `CleanerProperties.PageDeletesAll` | main.go:99-106 | Without a non-rate-limit delete error, the page completes. Every listed timestamp is deleted exactly once, in page order, so a rate-limited message is not retried. The number of pauses equals the number of rate-limited deletes. Where each pause falls is stated by `PauseFollowsRateLimitedDelete`. |
| `CleanerProperties.PauseFollowsRateLimitedDelete` | main.go:99-106 | Up to the first delete that ends the page, the k-th message's delete comes right after the calls for the messages before it. The next call is a 30-second pause exactly when that delete was refused by the rate limit, so the pause falls between this delete and the next message's delete. |
| `CleanerProperties.PauseOnlyAfterDelete` | main.go:99-106 | Every pause in a page's calls comes directly after a delete. |
| `CleanerProperties.PageStopsAtFatal` | main.go:101-109 | The first delete with a non-rate-limit error ends the page with that error. Only the messages up to it are deleted, and that delete is the last call. |
| `CleanerProperties.PageCompletesIff` | main.go:99-111 | A page completes without error if and only if no delete meets a non-rate-limit error. |
| `CleanerProperties.PageMakesNoRequest` | main.go:99-111 | The inner loop never requests history. |
| `CleanerProperties.HistoryConsumes` | main.go:89-113 | Each history request consumes exactly one scripted answer from the front. The unconsumed answers are a suffix of the script, and a non-empty script always loses at least one. |
| `CleanerProperties.HistoryOnChannel` | main.go:85-106 | Every call `deleteConvo` makes is a request or a delete on its own channel, or a 30-second pause. |
| `CleanerProperties.FailureEndsAtFailingCall` | main.go:91-108 | A failed run returns the error of its last call. That call is either the last history request, whose answer was that error, or a delete of a message on the last fetched page whose reply was that error, which is not a rate limit. Nothing is called after it. |
| `CleanerProperties.RefetchesIffNoMore` | main.go:95-113 | After a non-empty page that completes, `HasMore` true ends the run with success after that one request. History is requested again exactly when `HasMore` is false and another answer exists. |
| `CleanerProperties.TwoMessagesThenEmptyPage` | main.go:89-113 | Pages `[m1, m2]` (no more history), then an empty page: request, delete m1, delete m2, request, success. |
| `CleanerProperties.TwoMessagesWithMoreHistory` | main.go:89-113 | Pages `[m1, m2]` (more history reported), then an empty page: request, delete m1, delete m2, success. The empty page is not requested and stays unconsumed. |
| `CleanerProperties.RateLimitedDeleteIsSkipped` | main.go:99-106 | A rate-limited delete is followed by `Sleep(30)` and the next message, and the run succeeds. |
| `CleanerProperties.FatalDeleteStops` | main.go:101-109 | A delete error without the rate-limit text is returned at once, and the message after it is never deleted. |
| `CleanerProperties.MoreHistoryEndsLoop` | main.go:112 | A page reporting more history ends the loop, and the next answer is never requested. |
| `Start.Start` | main.go:37-60 | The run equals `StartRun`. An invalid config fails with its reason before any platform call. A valid config with conversations configured succeeds with no platform call and no answer consumed. |
| `Start.DeleteConvos` | main.go:51-57 | The loop over conversations yields the outcome, calls and unconsumed answers of `DeleteAll`: `deleteConvo` on each conversation in order, stopping at the first error. |
| `Start.DeleteAllAppend` | main.go:51-57 | Clearing `xs + ys` clears `xs` and continues with `ys` only if every conversation of `xs` succeeded. |
| `Start.StopsAtFirstFailure` | main.go:51-57 | Conversations are cleared in order. The first one that does not succeed ends the run with its outcome, and later ones are never touched. |
| `Start.DeleteAllReachesEach` | main.go:51-59 | When the loop succeeds, every conversation's history was requested. |
| `Start.ConfiguredConversationsAreIgnored` | main.go:66-81 | With a valid config that names conversations, the run is a success with no platform call. |
| `Start.ResolveFailureEndsRun` | main.go:46-49 | With no conversation configured, the first user whose channel fails to open ends the run with that error. Only users up to it are opened, and no history is requested. |

## Left out

- `readYmlFile` (main.go:138-149): reading the file and YAML parsing are I/O and a foreign parser. The model starts from a parsed `Config` and keeps only the validation.
- `main`, the kong argument parsing and the version constant (main.go:15-17, 162-178) are CLI plumbing. The error is only logged there, so no exit status is modelled.
- `errInvalidConfig` (main.go:19-23) is declared but never used. Validation errors are abstract `ConfigError` values, not the `fmt.Errorf` texts.
- `slack.New` and the real `OpenConversation`, `GetConversationHistory` and `DeleteMessage` calls (main.go:44, 91, 101, 131) are network calls into an unseen library. They are replaced by the resolver and the script.
- Convos.GetConvos: the resolver is a fixed function of the user ID. The same user always gets the same answer, and Slack's opening or reuse of a channel is not modelled.
- Cleaner.DeleteConvo: the real loop has no bound. The model needs one scripted answer per history request. A run that asks for more than the script holds ends with `ScriptExhausted`, which the program cannot produce, and `start` stops on it as on an error.
- `time.Sleep` and `log.Printf` are side effects without logical content. A pause is recorded as a `Sleep(30)` event, and logging is dropped.
- Slack.Contains works on characters, while Go's `strings.Contains` works on bytes. For valid UTF-8 text both give the same answer.
