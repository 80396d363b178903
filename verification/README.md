# Dev bounties on Hive: the decision logic behind the pages

This project models the parts of a React front end for GitHub bug bounties paid in HIVE that decide
something rather than draw something. It covers:

- the create-bounty page: the GitHub-link check, the ordered checks of `handleSubmit` with their
  error messages, and the `isSubmitting` flag around the call to the bounty contract;
- the GitHub client: its endpoint paths, the check that a pull request references an issue, and
  the lookup of a pull request's author from a pasted link;
- the bounty list hook: bounties read from posts tagged `bounty`, the two sample bounties, the
  fallback when the listing fails, and the prepend after a successful escrow transfer;
- the wallet hook: connecting through Hive Keychain, the saved username in local storage,
  auto-connect, and disconnect.

Everything the front end asks of the outside world is a parameter of the model:

- the Keychain extension and its answers;
- the bounty contract's answer;
- the Hive post listing;
- the escrow transfer's outcome;
- GitHub's answers, given as a value that maps each endpoint path to a parsed reply or a failure;
- the clock readings.

Each asynchronous handler is split at its `await`. A `Begin…` method is the synchronous part, a
`Complete…` method is the continuation including `finally`, and a `Handle…` or `Fetch…` method
runs the two in order.

Modules, one per concern:

- `Text`: JavaScript string helpers:
  - `||` defaults on a possibly missing text;
  - decimal numbers as text;
  - `includes`;
  - `split`/`join`.
- `GithubUrl`: the anchored link pattern of the create-bounty form, as a recogniser over the
  `/`-separated pieces of the text.
- `PrLink`: the unanchored pull-request pattern. It is a small interpreter for patterns made of
  literals and greedy character-class groups, with its soundness proved, and its completeness proved for patterns whose groups are each
  followed by a literal starting outside their class (the interpreter does not backtrack), applied
  to `github\.com\/([^\/]+)\/([^\/]+)\/pull\/(\d+)`.
- `GitHubService`: the endpoint paths, `verifyPRLinkedToIssue` and `verifyPRCreator`.
- `Wallet`: the `WalletSession` class for `useWallet`.
- `CreateBountyPage`: the form and the `CreateBountyForm` class for the page's state.
- `Bounties`: the post-to-bounty reading, the samples, and the `BountyStore` class for `useBounties`.

One behaviour is easy to misread, and the model follows the code. When the escrow transfer
reports a failure, `createBounty` throws `new Error(txResponse.message)` and the
handler answers `err.message || 'Failed to create bounty'`. A missing or empty transfer message
therefore gives the default text, not the transfer's message.

## Model

| member | source | states |
|---|---|---|
| GithubUrl.ValidateGithubUrl | src/pages/CreateBounty.tsx:25-28 | No contract of its own: `githubRegex.test(url)`. See `ParseSound` and `ParseComplete`. |
| GithubUrl.ParseGithubUrl | src/pages/CreateBounty.tsx:25-28 | No contract of its own: it reads a link into owner, repo, kind and number. See `ParseSound` and `ParseComplete`. |
| GithubUrl.ParseSound | src/pages/CreateBounty.tsx:25-28 | An accepted link is exactly `https://github.com/` + owner + `/` + repo + `/` + `issues` or `pull` + `/` + number. The owner is non-empty over letters, digits and `-`. The repo is non-empty over those plus `.` and `_`. The number is one or more digits. |
| GithubUrl.ParseComplete | src/pages/CreateBounty.tsx:25-28 | Every text of that shape is accepted, and is read back into the same owner, repo, kind and number. |
| GithubUrl.AcceptedShape | src/pages/CreateBounty.tsx:26 | An accepted link begins with `https://github.com/` and its last character is a digit. |
| GithubUrl.NoTrailingText | src/pages/CreateBounty.tsx:26 | The pattern is anchored at the end: if a link and the link followed by more text are both accepted, the extra text is digits only. So no `/`, query or fragment can follow. |
| GithubUrl.NoLeadingText | src/pages/CreateBounty.tsx:26 | The pattern is anchored at the start: no non-empty text can precede an accepted link. |
| CreateBountyPage.FieldOf | src/pages/CreateBounty.tsx:13-20 | No contract of its own: it reads one of the form's six fields. See `FieldsDetermineForm`. |
| CreateBountyPage.FieldsDetermineForm | src/pages/CreateBounty.tsx:13-20 | Two forms with the same value in each of the six fields are the same form. |
| CreateBountyPage.WithField | src/pages/CreateBounty.tsx:116-195 | Each input's change handler gives the edited field the typed value, and every other field keeps its old value. |
| CreateBountyPage.EditsAreIndependent | src/pages/CreateBounty.tsx:116-195 | Edits of two different fields commute, and a second edit of the same field overrides the first. |
| CreateBountyPage.TrimStart | src/pages/CreateBounty.tsx:53 | `parseFloat` skips leading white space: the result is a suffix of the text and does not start with white space. |
| CreateBountyPage.TrimStartRemovesOnlySpace | src/pages/CreateBounty.tsx:53 | What `parseFloat` skips before the number is white space only. |
| CreateBountyPage.SkipSignAppend | src/pages/CreateBounty.tsx:53 | The optional sign is read from the first character, so text appended to a non-empty text passes through unchanged. |
| CreateBountyPage.HasNumericPrefix | src/pages/CreateBounty.tsx:53 | No contract of its own: `isNaN(parseFloat(s))` is false. See `TrailingTextKeepsNumber`, `LeadingSpaceIgnored`, `NoDigitIsNaN` and `DigitStartIsNumber`. |
| CreateBountyPage.AmountAccepted | src/pages/CreateBounty.tsx:53 | No contract of its own: the amount check. See `BadAmountRejected`. |
| CreateBountyPage.TrailingTextKeepsNumber | src/pages/CreateBounty.tsx:53 | `parseFloat` reads only a prefix: text after a numeric prefix never makes the amount `NaN`. |
| CreateBountyPage.LeadingSpaceIgnored | src/pages/CreateBounty.tsx:53 | Leading white space does not change whether the amount is `NaN`. |
| CreateBountyPage.NoDigitIsNaN | src/pages/CreateBounty.tsx:53 | An amount with no digit and no `Infinity` in it is `NaN`. |
| CreateBountyPage.DigitStartIsNumber | src/pages/CreateBounty.tsx:53 | An amount that starts with a digit is a number. |
| CreateBountyPage.Validate | src/pages/CreateBounty.tsx:34-57 | No contract of its own: the four checks of `handleSubmit`. See `ValidateOrder` and `ValidateStopsAtFirstFailure`. |
| CreateBountyPage.ValidateOrder | src/pages/CreateBounty.tsx:34-57 | The checks run in the order wallet account, Keychain, link, amount. Each message is produced exactly when all earlier checks pass and its own fails. No message is produced exactly when all four pass. |
| CreateBountyPage.ValidateStopsAtFirstFailure | src/pages/CreateBounty.tsx:34-50 | Once a check fails, the later checks are not consulted: changing what they would inspect leaves the outcome as it is. |
| CreateBountyPage.BadAmountRejected | src/pages/CreateBounty.tsx:53-57 | With the earlier checks passing, an empty amount, or one without a numeric prefix, is refused with `Please enter a valid reward amount`. |
| CreateBountyPage.AcceptedFormShape | src/pages/CreateBounty.tsx:34-57 | A form that passes has an account, the extension present, a link of the accepted shape, and a non-empty numeric amount. |
| CreateBountyPage.RequestFor | src/pages/CreateBounty.tsx:62-70 | No contract of its own: the contract request built from the account and the form. See `CreateBountyForm.HandleSubmit`. |
| CreateBountyPage.SubmitError | src/pages/CreateBounty.tsx:74-85 | Success leaves no error. A reported failure leaves the response's message. A thrown error leaves its own message when there is one, and `Failed to create bounty` otherwise. |
| CreateBountyPage.CreateBountyForm.constructor | src/pages/CreateBounty.tsx:13-23 | The page starts with an empty form in `HIVE`, no error, not submitting. |
| CreateBountyPage.CreateBountyForm.Edit | src/pages/CreateBounty.tsx:116-195 | An edit changes the form as `WithField` says and nothing else. |
| CreateBountyPage.CreateBountyForm.BeginSubmit | src/pages/CreateBounty.tsx:30-59 | The error becomes the first failing check's message. A request goes to the contract exactly when no check fails, and then `isSubmitting` is raised. A failed check leaves `isSubmitting` as it was. |
| CreateBountyPage.CreateBountyForm.CompleteSubmit | src/pages/CreateBounty.tsx:62-88 | `isSubmitting` is false on every path. Success navigates to `/`. A failure records the error `SubmitError` gives. |
| CreateBountyPage.CreateBountyForm.HandleSubmit | src/pages/CreateBounty.tsx:30-89 | The whole handler: the request is the account name with the form's title, description, link and amount, and it is sent exactly when the checks pass. Every started submission ends with `isSubmitting` false. |
| GitHubService.IssuePath | src/services/github.service.ts:19-21 | No contract of its own. See `IssuePathPieces` and `PathsDistinct`. |
| GitHubService.PullPath | src/services/github.service.ts:23-25 | No contract of its own. See `PullPathPieces` and `PathsDistinct`. |
| GitHubService.CommitsPath | src/services/github.service.ts:27-29 | No contract of its own. See `CommitsPathPieces` and `PathsDistinct`. |
| GitHubService.IssuePathPieces | src/services/github.service.ts:19-21 | The issue path splits at `/` into `""`, `repos`, owner, repo, `issues`, number. |
| GitHubService.PullPathPieces | src/services/github.service.ts:23-25 | The pull-request path splits into `""`, `repos`, owner, repo, `pulls`, number. |
| GitHubService.CommitsPathPieces | src/services/github.service.ts:27-29 | The commits path splits into the pull-request path's pieces followed by `commits`. |
| GitHubService.PathsDistinct | src/services/github.service.ts:19-29 | For owners and repos without `/`, each path determines its owner, repo and number, and the three kinds of path never coincide. |
| GitHubService.ScanCommits | src/services/github.service.ts:46-51 | `some` over the commits gives true exactly when a commit message mentions the issue and every earlier element has a `commit` object. It gives false exactly when every element has one and none mentions the issue. It throws otherwise. |
| GitHubService.VerifyPRLinkedToIssue | src/services/github.service.ts:31-56 | No contract of its own: `verifyPRLinkedToIssue`. See `VerifyLinkedAgreesWithContent` and `LinkedIff`. |
| GitHubService.VerifyLinkedAgreesWithContent | src/services/github.service.ts:31-56 | A failed pull-request request gives false. A body that mentions the issue gives true whatever the commit list holds. A failed commits request after a non-mentioning body gives false. With both requests answered, the result is the content check. |
| GitHubService.LinkedIff | src/services/github.service.ts:40-51 | When every commit has a `commit` object, the pull request is linked exactly when the body or some commit message contains `#n` or the issue link. With no commits, only the body counts. |
| GitHubService.LinkedMonotoneInCommits | src/services/github.service.ts:46-50 | Adding commits at the end of the list never turns a link into no link. |
| GitHubService.LinkedMonotoneInBody | src/services/github.service.ts:40 | Adding text to the body never turns a link into no link. |
| GitHubService.LongerNumberAlsoMentions | src/services/github.service.ts:37-40 | The test is plain containment: a text that mentions `#` followed by a longer number, such as `#123` for issue 12, also mentions the shorter issue. |
| GitHubService.IssueUrlIsAcceptedLink | src/services/github.service.ts:38 | For an owner and repo the form's pattern allows, the issue link looked for is a link the form accepts. |
| GitHubService.CreatorRejectsUnmatchedLink | src/services/github.service.ts:64-67 | A link that contains no `github.com/<a>/<b>/pull/<digits>` text is answered with `Invalid PR URL format`, whatever GitHub would say. |
| GitHubService.VerifyPRCreator | src/services/github.service.ts:58-82 | No contract of its own: `verifyPRCreator`. See `CreatorRejectsUnmatchedLink` and `CreatorAnswer`. |
| GitHubService.CreatorAnswer | src/services/github.service.ts:58-82 | A lookup of the linked pull request that returns it with a `user` gives `isValid: true` with that `user.login` and no error. Conversely, a positive answer carries the `user.login` GitHub gave for the pull request the link names. A negative answer carries no username, and exactly one of the two messages: the lookup failure when the link matched, the format error when it did not. |
| PrLink.MatchFrom | src/services/github.service.ts:64 | A match starting at a position ends between that position and the end of the text. The rest is in `MatchSound` and `MatchComplete`. |
| PrLink.MatchSound | src/services/github.service.ts:64 | What the pattern interpreter captures fits the pattern: one non-empty run of the right class per group. The text the match spans is the pattern rendered with those captures. |
| PrLink.MatchComplete | src/services/github.service.ts:64 | Wherever a rendering of captures that fit the pattern occurs, the interpreter matches there. For a pattern whose groups are each followed by a literal starting outside their class, every capture but the last is the one rendered, and the last is at least as long. |
| PrLink.RunEnd | src/services/github.service.ts:64 | A greedy group's run covers only characters of its class and stops at the first one outside it. |
| PrLink.PrFits | src/services/github.service.ts:64 | The groups `([^\/]+)`, `([^\/]+)` and `(\d+)` accept exactly a non-empty owner and repo without `/` and a non-empty digit run. |
| PrLink.PrGreedy | src/services/github.service.ts:64 | In the pull-request pattern every group is followed by a literal that starts outside its class, so greedy runs never need to give anything back. |
| PrLink.PrTextIsRender | src/services/github.service.ts:64 | For well-formed groups, the pattern's rendering is `github.com/` + owner + `/` + repo + `/pull/` + number. |
| PrLink.MatchAt | src/services/github.service.ts:64 | A match at a position yields a well-formed owner, repo and number. |
| PrLink.MatchAtSound | src/services/github.service.ts:64 | The text of a match occurs in the link at the match's position. |
| PrLink.MatchAtComplete | src/services/github.service.ts:64 | Where the text of a well-formed owner, repo and number occurs, the pattern matches there with the same owner and repo, and a number that extends the given one. |
| PrLink.FirstMatch | src/services/github.service.ts:64 | `match` without the `g` flag returns the leftmost match: no earlier position matches. When there is no match, no position matches. |
| PrLink.FirstMatchFrom | src/services/github.service.ts:64 | A match at `i` with none before it is the one `match` returns. |
| PrLink.ExtractPrRef | src/services/github.service.ts:64-69 | The destructured owner, repo and number are well formed. |
| PrLink.ExtractSound | src/services/github.service.ts:64-69 | The extracted groups are well formed and their match text is a substring of the link. |
| PrLink.ExtractComplete | src/services/github.service.ts:64-65 | A link containing the text of any well-formed owner, repo and number is matched: the pattern is unanchored. |
| PrLink.EmbeddedLinkIsFound | src/services/github.service.ts:64-65 | Surrounding text is allowed: any text before and after a match text still matches. |
| PrLink.PullLinkIsPrText | src/services/github.service.ts:64 | A pull-request link of the form's shape is `https://` followed by the pattern's text for its owner, repo and number. |
| PrLink.NothingBeforeHost | src/services/github.service.ts:64 | No match can start inside a link's leading `https://`. |
| PrLink.WholeLinkMatches | src/services/github.service.ts:64-69 | For `https://` followed by a match text, `match` returns exactly that text's owner, repo and number. |
| PrLink.AcceptedPullLinkExtracts | src/services/github.service.ts:64-69 | For a pull-request link the create-bounty form accepts, the creator check extracts exactly its owner, repo and number. |
| Text.NatToString | src/services/github.service.ts:20 | A number in a template literal is a non-empty run of digits, with a leading `0` only for zero. |
| Text.ParseNatToString | src/services/github.service.ts:70 | `parseInt` of a number's decimal text gives the number back. |
| Text.NatToStringParse | src/services/github.service.ts:70 | The decimal text of `parseInt` of a digit run without leading zeros is that digit run. |
| Text.ContainsExtended | src/services/github.service.ts:40 | `includes` survives text added before and after. |
| Text.NatToStringInjective | src/hooks/useBounties.ts:103 | Different numbers have different decimal texts. |
| Wallet.ConnectedAccount | src/hooks/useWallet.ts:35-36 | An attempt connects exactly when the response reports success and carries an account, and then the account is the response's. |
| Wallet.ConnectError | src/hooks/useWallet.ts:39-46 | An unsuccessful response leaves its own message, which may be missing. A thrown error leaves its message, or `Failed to connect wallet` when that is missing or empty. |
| Wallet.AutoConnectTarget | src/hooks/useWallet.ts:21-27 | Auto-connect fires exactly when a non-empty name is saved under `hiveUsername` and the extension is detected, and then it uses that name. |
| Wallet.NoAutoConnectAfterRemoval | src/hooks/useWallet.ts:55 | After the saved name is removed, auto-connect never fires. |
| Wallet.AutoConnectIgnoresOtherKeys | src/hooks/useWallet.ts:23-24 | Only the `hiveUsername` entry of local storage is read: writing any other key leaves auto-connect's decision unchanged. |
| Wallet.AutoConnectNeedsBoth | src/hooks/useWallet.ts:24 | A missing extension, a missing name or an empty name each stop auto-connect alone. |
| Wallet.WalletSession.constructor | src/hooks/useWallet.ts:7-10 | No account, not connecting, no error; detection is the first extension check. |
| Wallet.WalletSession.RecheckKeychain | src/hooks/useWallet.ts:12-27 | The delayed second check updates only `keychainDetected`. It reports that the auto-connect effect runs again exactly when the value changed. |
| Wallet.WalletSession.BeginConnect | src/hooks/useWallet.ts:29-31 | Before the extension is asked, `isConnecting` is raised and the error cleared. Nothing else changes. |
| Wallet.WalletSession.CompleteConnect | src/hooks/useWallet.ts:33-51 | `isConnecting` is false on every path. The result is true exactly when `ConnectedAccount` gives an account. The account changes only then. Otherwise the error is `ConnectError`'s. |
| Wallet.WalletSession.HandleConnect | src/hooks/useWallet.ts:29-52 | The whole of `connect`: the same outcome, and a successful attempt leaves no error. Detection and storage are untouched. |
| Wallet.WalletSession.Disconnect | src/hooks/useWallet.ts:54-58 | Only the `hiveUsername` key is removed from storage, and the account becomes empty. Nothing else changes. |
| Wallet.WalletSession.RunAutoConnect | src/hooks/useWallet.ts:21-27 | The effect connects with `AutoConnectTarget`'s name when it fires, and changes nothing otherwise. |
| Bounties.ToBounty | src/hooks/useBounties.ts:49-69 | No contract of its own: one post read as a bounty. See `ToBountyFields`. |
| Bounties.ParsePosts | src/hooks/useBounties.ts:48-71 | No contract of its own: the `filter` and `map` over the listing. See the `ParsePosts…` lemmas below. |
| Bounties.ToBountyFields | src/hooks/useBounties.ts:49-69 | A post yields a bounty exactly when its metadata parses and has `bounty`. The post supplies id, title, body, author and date, and the metadata supplies amount, currency and deadline. The status is the metadata's, or `open` when missing or falsy. The link is the metadata's, or `''`. |
| Bounties.ParsePostsLength | src/hooks/useBounties.ts:48-71 | The listing yields one bounty per parseable post. |
| Bounties.ParsePostsAppend | src/hooks/useBounties.ts:48-71 | Reading two listings one after the other gives their bounties one after the other. |
| Bounties.ParsePostsOrigins | src/hooks/useBounties.ts:48-71 | Each bounty comes from a parseable post, in the posts' order. Every parseable post gives one. |
| Bounties.ParsePostsKeepsAll | src/hooks/useBounties.ts:48-71 | When every post is parseable, nothing is dropped and positions are kept. |
| Bounties.ParsePostsDropsOne | src/hooks/useBounties.ts:50-71 | A post whose metadata does not parse, or lacks `bounty`, is dropped wherever it stands: removing it changes nothing. |
| Bounties.ParsePostsDropsAll | src/hooks/useBounties.ts:50-71 | When no post is parseable, the listing yields no bounty. |
| Bounties.SampleBounties | src/hooks/useBounties.ts:8-33 | No contract of its own: the two sample bounties. See `SampleBountiesShape`. |
| Bounties.SampleBountiesShape | src/hooks/useBounties.ts:8-33 | There are two samples, open, with distinct ids, and their links are issue links the create-bounty form accepts. |
| Bounties.SampleLinksAccepted | src/hooks/useBounties.ts:17-31 | Both sample links pass the form's link check. |
| Bounties.FetchedList | src/hooks/useBounties.ts:74-81 | No contract of its own: the list after a fetch. See `FetchedListShape`. |
| Bounties.FetchedListShape | src/hooks/useBounties.ts:74-81 | The list after a fetch is the samples followed by the bounties read from the listing, or the samples alone when the listing failed. Its length is the samples' plus one per parseable post, or the samples' alone when the listing failed. |
| Bounties.CreateResultFor | src/hooks/useBounties.ts:97-121 | `createBounty` succeeds exactly when the transfer reports success, with `Bounty created successfully`. Otherwise it fails with the transfer's or thrown message, or `Failed to create bounty` when that is missing or empty. |
| Bounties.TransferFor | src/hooks/useBounties.ts:90-95 | No contract of its own: the escrow transfer. See `BountyStore.CreateBounty`. |
| Bounties.NewBounty | src/hooks/useBounties.ts:102-113 | No contract of its own: the bounty added after a transfer. See `NewBountyShape`. |
| Bounties.NewBountyShape | src/hooks/useBounties.ts:102-113 | The new bounty is open, belongs to the paying user, and carries the submitted fields. Its id is `bounty-` followed by the clock reading, so bounties created at different milliseconds have different ids. |
| Bounties.BountyStore.constructor | src/hooks/useBounties.ts:36-38 | The hook starts with the two samples, loading, and no error. |
| Bounties.BountyStore.BeginFetch | src/hooks/useBounties.ts:42-43 | A fetch raises `loading` and clears the error before the request. |
| Bounties.BountyStore.CompleteFetch | src/hooks/useBounties.ts:44-84 | The list becomes `FetchedList`: the samples followed by the parsed posts, or the samples alone after a failure, which sets `Failed to fetch bounties`. `loading` is false on every path. |
| Bounties.BountyStore.FetchBounties | src/hooks/useBounties.ts:40-85 | The whole fetch. A successful one leaves no error. |
| Bounties.BountyStore.CreateBounty | src/hooks/useBounties.ts:87-123 | The transfer goes from the user to `bounty.escrow` for the bounty's amount, with the bounty data in the memo. Only a successful transfer changes the list, to the new bounty followed by the old list unchanged. A failure leaves the list as it was. `loading` and the error are untouched. |

## Left out

- Rendering, routing, toasts, `console` logging and the loading toast are not modelled. Only the navigation target after a successful submission is kept.
- Network and extension I/O are parameters: `fetch` (github.service.ts:4-17), `getDiscussions`, `sendHiveTokens`, `connectWithKeychain`, `isKeychainInstalled` and `BountyContract.createBounty`.
- `request`'s error wrapping is not modelled. Every thrown error, whether HTTP, JSON or network, is one `FetchFailed` outcome.
- The value of `parseFloat` is not modelled, only whether it is `NaN`. The contract request therefore carries the amount text, not the `parseFloat` value sent as the prize pool.
- `JSON.parse(json_metadata)` is abstracted as an optional `Metadata` value. A post whose metadata does not parse, or is not an object, has none.
- `JSON.stringify` of the transfer memo is not modelled: the memo is kept as a structured value, with its `type` and the bounty data.
- The timers and clocks (`setTimeout`, `Date.now()`, `new Date().toISOString()`) are parameters: the sample timestamps in `SampleClock`, and the id clock and creation time of `createBounty`.
- GitHubService.VerifyPRLinkedToIssue: the pull-request and issue numbers, and the numbers in `IssuePath`, `PullPath` and `CommitsPath`, are naturals. A JavaScript number that is negative, fractional, `NaN`, or 10^21 or above renders differently in a template literal, and such numbers are not modelled.
- GitHubService.VerifyPRCreator: `parseInt` is modelled as exact on digit runs. Above 2^53 the JavaScript number loses precision, and that is not modelled.
- The `message` fields of thrown errors are `Option<string>`, with `None` for an error whose message is undefined. `new Error(null)` has the message `"null"`, and that case is not distinguished.
- Wallet.HiveAccount: only the account's `name` is modelled, because no other field is read by the modelled code. What `connectWithKeychain` itself writes to local storage is not modelled, because that code is not part of this model.
- GitHubService.LinkedMonotoneInCommits: monotonicity is stated for commits added at the end of the list. `some` stops at the first mention, but an element without a `commit` object before it throws, which turns the answer to false. So commits added in front do not preserve a link in general.
- The effect that runs `fetchBounties` on mount (useBounties.ts:125-127) is the constructor followed by `FetchBounties`. It is not a separate member.
- Bounties.BountyStore.CreateBounty: "the transfer happens before any list change" is expressed by the list change depending on the transfer's outcome. The two steps are not interleaved with other calls.
- Wallet.WalletSession.RunAutoConnect: the effect runs at mount and again only when `keychainDetected` changes (useWallet.ts:21-27). A `RecheckKeychain` that finds the same value does not re-run it: `RecheckKeychain` reports whether the effect runs again, and calling `RunAutoConnect` then is left to the user of the model, which does not enforce this schedule.
- The React state updaters are modelled as immediate assignments. Batching and stale closures are not modelled.
