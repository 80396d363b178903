/** The GitHub REST client used by the claim flow: the endpoint paths it requests, the check
    that a pull request references an issue, and the lookup of a pull request's author from
    a pasted link. HTTP is abstracted: a `GitHubApi` value says what each endpoint returns. */
module GitHubService {
  import opened Text
  import GithubUrl
  import opened PrLink

  // ---------------------------------------------------------------------------
  // Endpoints

  function IssuePath(owner: string, repo: string, issue: nat): string {
    "/repos/" + owner + "/" + repo + "/issues/" + NatToString(issue)
  }

  function PullPath(owner: string, repo: string, pr: nat): string {
    "/repos/" + owner + "/" + repo + "/pulls/" + NatToString(pr)
  }

  function CommitsPath(owner: string, repo: string, pr: nat): string {
    "/repos/" + owner + "/" + repo + "/pulls/" + NatToString(pr) + "/commits"
  }

  lemma RepoPathIsJoin(owner: string, repo: string, kind: string, n: string)
    ensures "/repos/" + owner + "/" + repo + "/" + kind + "/" + n
         == Join(["", "repos", owner, repo, kind, n], '/')
  {
    var tail := [owner, repo, kind, n];
    JoinAppend(["", "repos"], tail, '/');
    assert ["", "repos"] + tail == ["", "repos", owner, repo, kind, n];
    JoinCons("", ["repos"], '/');
    assert Join(["", "repos"], '/') == "/repos";
    JoinFour(owner, repo, kind, n, '/');
    var rest := owner + "/" + repo + "/" + kind + "/" + n;
    assert Join(tail, '/') == rest;
    assert "/repos" + "/" + rest == "/repos/" + owner + "/" + repo + "/" + kind + "/" + n;
  }

  /** `/kind/` written as one literal is the same text as `/`, the kind, and `/`. */
  lemma KindLiteral(front: string, kind: string, back: string)
    ensures front + ("/" + kind + "/") + back == front + "/" + kind + "/" + back
  {
  }

  lemma CommitsPathIsJoin(owner: string, repo: string, n: string)
    ensures "/repos/" + owner + "/" + repo + "/pulls/" + n + "/commits"
         == Join(["", "repos", owner, repo, "pulls", n, "commits"], '/')
  {
    var p := ["", "repos", owner, repo, "pulls", n];
    KindLiteral("/repos/" + owner + "/" + repo, "pulls", n);
    RepoPathIsJoin(owner, repo, "pulls", n);
    JoinAppend(p, ["commits"], '/');
    assert p + ["commits"] == ["", "repos", owner, repo, "pulls", n, "commits"];
  }

  /** Each request path reads back, piece by piece, as the owner, the repository, the kind of
      resource and the number it was built from (owner and repository without `/`). */
  lemma IssuePathPieces(owner: string, repo: string, n: nat)
    requires '/' !in owner && '/' !in repo
    ensures Split(IssuePath(owner, repo, n), '/') == ["", "repos", owner, repo, "issues", NatToString(n)]
  {
    var x, num := "/repos/" + owner + "/" + repo, NatToString(n);
    assert IssuePath(owner, repo, n) == x + "/issues/" + num;
    assert "/issues/" == "/" + "issues" + "/";
    KindLiteral(x, "issues", num);
    RepoPathIsJoin(owner, repo, "issues", num);
    DigitsHaveNoSlash(num);
    var parts := ["", "repos", owner, repo, "issues", num];
    assert forall k :: 0 <= k < |parts| ==> '/' !in parts[k];
    SplitJoin(parts, '/');
  }

  lemma PullPathPieces(owner: string, repo: string, n: nat)
    requires '/' !in owner && '/' !in repo
    ensures Split(PullPath(owner, repo, n), '/') == ["", "repos", owner, repo, "pulls", NatToString(n)]
  {
    var x, num := "/repos/" + owner + "/" + repo, NatToString(n);
    assert PullPath(owner, repo, n) == x + "/pulls/" + num;
    assert "/pulls/" == "/" + "pulls" + "/";
    KindLiteral(x, "pulls", num);
    RepoPathIsJoin(owner, repo, "pulls", num);
    DigitsHaveNoSlash(num);
    var parts := ["", "repos", owner, repo, "pulls", num];
    assert forall k :: 0 <= k < |parts| ==> '/' !in parts[k];
    SplitJoin(parts, '/');
  }

  lemma CommitsPathPieces(owner: string, repo: string, n: nat)
    requires '/' !in owner && '/' !in repo
    ensures Split(CommitsPath(owner, repo, n), '/')
         == ["", "repos", owner, repo, "pulls", NatToString(n), "commits"]
  {
    DigitsHaveNoSlash(NatToString(n));
    CommitsPathIsJoin(owner, repo, NatToString(n));
    SplitJoin(["", "repos", owner, repo, "pulls", NatToString(n), "commits"], '/');
  }

  /** Different requests never share a path: the kind of resource and its coordinates can be
      read back from the path alone. */
  lemma PathsDistinct(owner: string, repo: string, n: nat, owner': string, repo': string, n': nat)
    requires '/' !in owner && '/' !in repo && '/' !in owner' && '/' !in repo'
    ensures PullPath(owner, repo, n) == PullPath(owner', repo', n') ==> owner == owner' && repo == repo' && n == n'
    ensures IssuePath(owner, repo, n) == IssuePath(owner', repo', n') ==> owner == owner' && repo == repo' && n == n'
    ensures CommitsPath(owner, repo, n) == CommitsPath(owner', repo', n') ==> owner == owner' && repo == repo' && n == n'
    ensures IssuePath(owner, repo, n) != PullPath(owner', repo', n')
    ensures CommitsPath(owner, repo, n) != PullPath(owner', repo', n')
    ensures CommitsPath(owner, repo, n) != IssuePath(owner', repo', n')
  {
    IssuePathPieces(owner, repo, n);
    IssuePathPieces(owner', repo', n');
    PullPathPieces(owner, repo, n);
    PullPathPieces(owner', repo', n');
    CommitsPathPieces(owner, repo, n);
    CommitsPathPieces(owner', repo', n');
    if PullPath(owner, repo, n) == PullPath(owner', repo', n') {
      NatToStringInjective(n, n');
    }
    if IssuePath(owner, repo, n) == IssuePath(owner', repo', n') {
      NatToStringInjective(n, n');
    }
    if CommitsPath(owner, repo, n) == CommitsPath(owner', repo', n') {
      NatToStringInjective(n, n');
    }
  }

  // ---------------------------------------------------------------------------
  // What the API returns

  datatype GitHubUser = GitHubUser(login: string)

  /** The fields of a pull request the client reads; `None` is a field that is missing or null. */
  datatype PullRequest = PullRequest(body: Option<string>, user: Option<GitHubUser>)

  datatype CommitInfo = CommitInfo(message: Option<string>)

  /** One element of the commit list; `commit` is `None` when the element has no `commit`
      object, so that reading its message throws. */
  datatype CommitEntry = CommitEntry(commit: Option<CommitInfo>)

  /** The outcome of `request`: the parsed body, or a thrown error (network failure, a status
      that is not ok, a body that is not JSON). */
  datatype Fetched<T> = Fetched(value: T) | FetchFailed

  /** What GitHub answers for each endpoint path. */
  datatype GitHubApi = GitHubApi(pull: string -> Fetched<PullRequest>, commits: string -> Fetched<seq<CommitEntry>>)

  // ---------------------------------------------------------------------------
  // Is a pull request linked to an issue?

  function IssueRef(issue: nat): string {
    "#" + NatToString(issue)
  }

  function IssueUrl(owner: string, repo: string, issue: nat): string {
    "https://github.com/" + owner + "/" + repo + "/issues/" + NatToString(issue)
  }

  predicate Mentions(text: string, owner: string, repo: string, issue: nat) {
    Contains(text, IssueRef(issue)) || Contains(text, IssueUrl(owner, repo, issue))
  }

  predicate BodyMentions(body: Option<string>, owner: string, repo: string, issue: nat) {
    Truthy(body) && Mentions(body.value, owner, repo, issue)
  }

  predicate CommitMentions(c: CommitEntry, owner: string, repo: string, issue: nat) {
    c.commit.Some? && Truthy(c.commit.value.message) && Mentions(c.commit.value.message.value, owner, repo, issue)
  }

  /** `commits.some(...)` over the commit list; `None` when an element without a `commit`
      object is reached before any mention, which throws. */
  function ScanCommits(commits: seq<CommitEntry>, owner: string, repo: string, issue: nat): (r: Option<bool>)
    ensures r == Some(true) <==> exists k :: 0 <= k < |commits| && CommitMentions(commits[k], owner, repo, issue)
                                   && forall j :: 0 <= j < k ==> commits[j].commit.Some?
    ensures r == Some(false) <==> forall k :: 0 <= k < |commits| ==> commits[k].commit.Some? && !CommitMentions(commits[k], owner, repo, issue)
  {
    if commits == [] then Some(false)
    else if commits[0].commit.None? then None
    else if CommitMentions(commits[0], owner, repo, issue) then Some(true)
    else
      var r := ScanCommits(commits[1..], owner, repo, issue);
      assert forall k :: 1 <= k < |commits| ==> commits[k] == commits[1..][k - 1];
      r
  }

  /** The link check once the pull request's body and commit list are in hand. */
  predicate LinkedByContent(owner: string, repo: string, issue: nat, body: Option<string>, commits: seq<CommitEntry>) {
    BodyMentions(body, owner, repo, issue) || ScanCommits(commits, owner, repo, issue) == Some(true)
  }

  /** `verifyPRLinkedToIssue(owner, repo, prNumber, issueNumber)`: every failure is reported
      as `false`. */
  predicate VerifyPRLinkedToIssue(api: GitHubApi, owner: string, repo: string, pr: nat, issue: nat) {
    match api.pull(PullPath(owner, repo, pr))
    case FetchFailed => false
    case Fetched(p) =>
      if BodyMentions(p.body, owner, repo, issue) then true
      else
        match api.commits(CommitsPath(owner, repo, pr))
        case FetchFailed => false
        case Fetched(cs) => ScanCommits(cs, owner, repo, issue) == Some(true)
  }

  /** Once both requests succeed, the answer is the content check; a failed request gives
      `false`; and a body that mentions the issue settles it whatever the commit list holds. */
  lemma VerifyLinkedAgreesWithContent(api: GitHubApi, owner: string, repo: string, pr: nat, issue: nat)
    ensures api.pull(PullPath(owner, repo, pr)).FetchFailed? ==> !VerifyPRLinkedToIssue(api, owner, repo, pr, issue)
    ensures api.pull(PullPath(owner, repo, pr)).Fetched?
         && BodyMentions(api.pull(PullPath(owner, repo, pr)).value.body, owner, repo, issue)
         ==> VerifyPRLinkedToIssue(api, owner, repo, pr, issue)
    ensures api.pull(PullPath(owner, repo, pr)).Fetched?
         && !BodyMentions(api.pull(PullPath(owner, repo, pr)).value.body, owner, repo, issue)
         && api.commits(CommitsPath(owner, repo, pr)).FetchFailed?
         ==> !VerifyPRLinkedToIssue(api, owner, repo, pr, issue)
    ensures api.pull(PullPath(owner, repo, pr)).Fetched? && api.commits(CommitsPath(owner, repo, pr)).Fetched?
         ==> (VerifyPRLinkedToIssue(api, owner, repo, pr, issue)
              <==> LinkedByContent(owner, repo, issue, api.pull(PullPath(owner, repo, pr)).value.body,
                                   api.commits(CommitsPath(owner, repo, pr)).value))
  {
  }

  /** When every commit has a `commit` object, the pull request is linked exactly when its body
      or one of its commit messages mentions the issue; with no commits only the body counts. */
  lemma LinkedIff(owner: string, repo: string, issue: nat, body: Option<string>, commits: seq<CommitEntry>)
    requires forall k :: 0 <= k < |commits| ==> commits[k].commit.Some?
    ensures LinkedByContent(owner, repo, issue, body, commits)
        <==> BodyMentions(body, owner, repo, issue)
             || exists k :: 0 <= k < |commits| && CommitMentions(commits[k], owner, repo, issue)
    ensures commits == [] ==> (LinkedByContent(owner, repo, issue, body, commits) <==> BodyMentions(body, owner, repo, issue))
  {
  }

  /** Adding commits at the end of the list never turns a link into no link. */
  lemma {:induction false} LinkedMonotoneInCommits(owner: string, repo: string, issue: nat, body: Option<string>,
                                                   commits: seq<CommitEntry>, more: seq<CommitEntry>)
    requires LinkedByContent(owner, repo, issue, body, commits)
    ensures LinkedByContent(owner, repo, issue, body, commits + more)
  {
    if !BodyMentions(body, owner, repo, issue) {
      var k :| 0 <= k < |commits| && CommitMentions(commits[k], owner, repo, issue)
               && forall j :: 0 <= j < k ==> commits[j].commit.Some?;
      var all := commits + more;
      assert all[k] == commits[k];
      assert forall j :: 0 <= j < k ==> all[j] == commits[j];
      assert ScanCommits(all, owner, repo, issue) == Some(true);
    }
  }

  function AppendToBody(body: Option<string>, text: string): Option<string> {
    Some((if body.Some? then body.value else "") + text)
  }

  /** Adding text to the body never turns a link into no link. */
  lemma LinkedMonotoneInBody(owner: string, repo: string, issue: nat, body: Option<string>, text: string,
                             commits: seq<CommitEntry>)
    requires LinkedByContent(owner, repo, issue, body, commits)
    ensures LinkedByContent(owner, repo, issue, AppendToBody(body, text), commits)
  {
    if BodyMentions(body, owner, repo, issue) {
      var b := body.value;
      if Contains(b, IssueRef(issue)) {
        ContainsExtended(b, IssueRef(issue), "", text);
        assert "" + b + text == b + text;
      } else {
        ContainsExtended(b, IssueUrl(owner, repo, issue), "", text);
        assert "" + b + text == b + text;
      }
    }
  }

  /** The reference is plain containment of `#n`: a text mentioning `#` followed by a longer
      number also mentions every issue whose number is a leading part of it. */
  lemma LongerNumberAlsoMentions(text: string, owner: string, repo: string, n: nat, d: nat)
    requires 0 < n && d < 10
    requires Contains(text, IssueRef(10 * n + d))
    ensures Mentions(text, owner, repo, n)
  {
    NatToStringAppendDigit(n, d);
    assert IssueRef(10 * n + d) == IssueRef(n) + [DigitChar(d)];
    ContainsPrefixOf(text, IssueRef(n), [DigitChar(d)]);
  }

  /** The issue link looked for is a link the create-bounty form accepts. */
  lemma IssueUrlIsAcceptedLink(owner: string, repo: string, issue: nat)
    requires GithubUrl.IsOwner(owner) && GithubUrl.IsRepo(repo)
    ensures GithubUrl.ValidateGithubUrl(IssueUrl(owner, repo, issue))
  {
    var l := GithubUrl.GithubLink(owner, repo, GithubUrl.Issues, NatToString(issue));
    GithubUrl.RenderIsJoin(l);
    assert IssueUrl(owner, repo, issue) == GithubUrl.Render(l);
    GithubUrl.ParseComplete(l);
  }

  // ---------------------------------------------------------------------------
  // `verifyPRCreator(prUrl)`

  const InvalidPrUrl: string := "Invalid PR URL format"
  const CreatorLookupFailed: string := "Failed to verify PR creator"

  datatype CreatorCheck = CreatorCheck(isValid: bool, username: Option<string>, error: Option<string>)

  /** Extracts owner, repository and number from the link, then requests that pull request;
      the number goes through `parseInt`, so leading zeros are dropped from the path. */
  function VerifyPRCreator(prUrl: string, api: GitHubApi): CreatorCheck {
    match ExtractPrRef(prUrl)
    case None => CreatorCheck(false, None, Some(InvalidPrUrl))
    case Some(r) =>
      match api.pull(PullPath(r.owner, r.repo, ParseDigits(r.number)))
      case FetchFailed => CreatorCheck(false, None, Some(CreatorLookupFailed))
      case Fetched(pr) =>
        // `prDetails.user.login` throws when `user` is missing
        match pr.user
        case None => CreatorCheck(false, None, Some(CreatorLookupFailed))
        case Some(u) => CreatorCheck(true, Some(u.login), None)
  }

  /** A link with no match text anywhere is refused with the format error, whatever GitHub
      would answer: no request decides it. */
  lemma CreatorRejectsUnmatchedLink(prUrl: string, api: GitHubApi)
    requires forall r :: WellFormedPrRef(r) ==> !Contains(prUrl, PrText(r))
    ensures VerifyPRCreator(prUrl, api) == CreatorCheck(false, None, Some(InvalidPrUrl))
  {
    if ExtractPrRef(prUrl).Some? {
      ExtractSound(prUrl);
    }
  }

  /** A positive answer names the author of the pull request the link points at, as GitHub
      reported it; a negative one carries exactly one of the two messages, and it is the
      lookup failure exactly when the link did match. A lookup that brings back a pull
      request with a `user` is always a positive answer. */
  lemma CreatorAnswer(prUrl: string, api: GitHubApi)
    ensures var c := VerifyPRCreator(prUrl, api);
      c.isValid ==>
        ExtractPrRef(prUrl).Some? && Contains(prUrl, PrText(ExtractPrRef(prUrl).value))
        && c.error.None? && c.username.Some?
        && var r := ExtractPrRef(prUrl).value;
           var reply := api.pull(PullPath(r.owner, r.repo, ParseDigits(r.number)));
           reply.Fetched? && reply.value.user == Some(GitHubUser(c.username.value))
    ensures var c := VerifyPRCreator(prUrl, api);
      !c.isValid ==> (c.username.None?
        && c.error == Some(if ExtractPrRef(prUrl).Some? then CreatorLookupFailed else InvalidPrUrl))
    ensures ExtractPrRef(prUrl).Some? ==>
      var r := ExtractPrRef(prUrl).value;
      var reply := api.pull(PullPath(r.owner, r.repo, ParseDigits(r.number)));
      reply.Fetched? && reply.value.user.Some? ==>
        VerifyPRCreator(prUrl, api) == CreatorCheck(true, Some(reply.value.user.value.login), None)
  {
    if ExtractPrRef(prUrl).Some? {
      ExtractSound(prUrl);
    }
  }
}
