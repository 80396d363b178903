/** The bounty list hook: the two sample bounties, the bounties read from posts tagged `bounty`
    (their JSON metadata already parsed), the failure fallback, and the prepend after a
    successful escrow transfer. The post listing and the transfer's outcome are parameters. */
module Bounties {
  import opened Text
  import GithubUrl

  datatype Bounty = Bounty(id: string, title: string, description: string, amount: string, currency: string,
                           creator: string, status: string, createdAt: string, deadline: Option<string>,
                           githubLink: string)

  /** The `bounty` object of a post's metadata; `None` is a field that is missing or falsy. */
  datatype BountyMeta = BountyMeta(amount: string, currency: string, status: Option<string>,
                                   deadline: Option<string>, githubLink: Option<string>)

  /** A post's parsed `json_metadata`; `bounty` is `None` when it has no truthy `bounty` field. */
  datatype Metadata = Metadata(bounty: Option<BountyMeta>)

  /** A post of the listing; `metadata` is `None` when `json_metadata` does not parse as an
      object, so that `JSON.parse` or the field access throws. */
  datatype Post = Post(id: string, title: string, body: string, author: string, created: string,
                       metadata: Option<Metadata>)

  const DefaultStatus: string := "open"
  const FetchFailed: string := "Failed to fetch bounties"
  const EscrowAccount: string := "bounty.escrow"
  const Created: string := "Bounty created successfully"
  const CreateFailed: string := "Failed to create bounty"
  const IdPrefix: string := "bounty-"

  // ---------------------------------------------------------------------------
  // Reading posts

  /** The callback of `map`: a bounty for a post whose metadata has a `bounty` field, with
      status `open` and an empty link when those are missing. */
  function ToBounty(p: Post): Option<Bounty> {
    match p.metadata
    case None => None
    case Some(m) =>
      match m.bounty
      case None => None
      case Some(b) =>
        Some(Bounty(p.id, p.title, p.body, b.amount, b.currency, p.author, OrElse(b.status, DefaultStatus),
                    p.created, b.deadline, OrElse(b.githubLink, "")))
  }

  predicate Parseable(p: Post) {
    ToBounty(p).Some?
  }

  /** What a post yields: only posts whose metadata parses and has `bounty` yield one; the
      post supplies id, title, body, author and date, the metadata the rest, and a parsed
      bounty always has a non-empty status. */
  lemma ToBountyFields(p: Post)
    ensures Parseable(p) <==> p.metadata.Some? && p.metadata.value.bounty.Some?
    ensures Parseable(p) ==>
      var b, m := ToBounty(p).value, p.metadata.value.bounty.value;
      b.id == p.id && b.title == p.title && b.description == p.body && b.creator == p.author
      && b.createdAt == p.created && b.amount == m.amount && b.currency == m.currency && b.deadline == m.deadline
      && b.status != []
      && (Truthy(m.status) ==> b.status == m.status.value) && (!Truthy(m.status) ==> b.status == DefaultStatus)
      && (Truthy(m.githubLink) ==> b.githubLink == m.githubLink.value) && (!Truthy(m.githubLink) ==> b.githubLink == "")
  {
  }

  /** What one post contributes to the list: its bounty, or nothing. */
  function Yield(p: Post): seq<Bounty> {
    if Parseable(p) then [ToBounty(p).value] else []
  }

  /** `response.map(...).filter(b => b !== null)`. */
  function ParsePosts(posts: seq<Post>): seq<Bounty>
    decreases |posts|
  {
    if posts == [] then [] else Yield(posts[0]) + ParsePosts(posts[1..])
  }

  lemma ParsePostsCons(p: Post, ps: seq<Post>)
    ensures ParsePosts([p] + ps) == Yield(p) + ParsePosts(ps)
  {
    assert ([p] + ps)[0] == p;
    assert ([p] + ps)[1..] == ps;
  }

  function CountParseable(posts: seq<Post>): nat
    decreases |posts|
  {
    if posts == [] then 0 else (if Parseable(posts[0]) then 1 else 0) + CountParseable(posts[1..])
  }

  /** One bounty per parseable post, no more. */
  lemma {:induction false} ParsePostsLength(posts: seq<Post>)
    ensures |ParsePosts(posts)| == CountParseable(posts) <= |posts|
    decreases |posts|
  {
    if posts != [] {
      ParsePostsLength(posts[1..]);
    }
  }

  /** Reading a listing in two parts gives the two results one after the other. */
  lemma {:induction false} ParsePostsAppend(xs: seq<Post>, ys: seq<Post>)
    ensures ParsePosts(xs + ys) == ParsePosts(xs) + ParsePosts(ys)
    decreases |xs|
  {
    if xs == [] {
      assert xs + ys == ys;
    } else {
      var p, tail := xs[0], xs[1..];
      assert xs == [p] + tail;
      assert xs + ys == [p] + (tail + ys);
      ParsePostsCons(p, tail + ys);
      ParsePostsCons(p, tail);
      ParsePostsAppend(tail, ys);
      assert Yield(p) + (ParsePosts(tail) + ParsePosts(ys)) == (Yield(p) + ParsePosts(tail)) + ParsePosts(ys);
    }
  }

  /** The positions, from `i` on, of the posts that yield a bounty. */
  ghost function OriginsFrom(posts: seq<Post>, i: nat): seq<nat>
    requires i <= |posts|
    decreases |posts| - i
  {
    if i == |posts| then []
    else (if Parseable(posts[i]) then [i] else []) + OriginsFrom(posts, i + 1)
  }

  /** The positions from `i` on lie in `[i, |posts|)`, name parseable posts, and each gives the
      bounty at the same place of the result. */
  lemma {:induction false} OriginsFromIndex(posts: seq<Post>, i: nat)
    requires i <= |posts|
    ensures var o, r := OriginsFrom(posts, i), ParsePosts(posts[i..]);
      |o| == |r|
      && forall k :: 0 <= k < |o| ==> i <= o[k] < |posts| && Parseable(posts[o[k]]) && r[k] == ToBounty(posts[o[k]]).value
    decreases |posts| - i
  {
    if i < |posts| {
      OriginsFromIndex(posts, i + 1);
      assert posts[i..][0] == posts[i];
      assert posts[i..][1..] == posts[i + 1..];
      assert ParsePosts(posts[i..]) == Yield(posts[i]) + ParsePosts(posts[i + 1..]);
    }
  }

  /** The positions from `i` on are strictly increasing and miss no parseable post. */
  lemma {:induction false} OriginsFromOrder(posts: seq<Post>, i: nat)
    requires i <= |posts|
    ensures forall k :: 0 <= k < |OriginsFrom(posts, i)| ==> i <= OriginsFrom(posts, i)[k]
    ensures forall k, l :: 0 <= k < l < |OriginsFrom(posts, i)| ==> OriginsFrom(posts, i)[k] < OriginsFrom(posts, i)[l]
    ensures forall j :: i <= j < |posts| && Parseable(posts[j]) ==> j in OriginsFrom(posts, i)
    decreases |posts| - i
  {
    if i < |posts| {
      OriginsFromOrder(posts, i + 1);
      var rest := OriginsFrom(posts, i + 1);
      var o := OriginsFrom(posts, i);
      if Parseable(posts[i]) {
        assert o == [i] + rest;
        forall k | 0 <= k < |o| ensures i <= o[k] {
          if k > 0 {
            assert o[k] == rest[k - 1];
          }
        }
        forall k, l | 0 <= k < l < |o| ensures o[k] < o[l] {
          assert o[l] == rest[l - 1];
          assert i + 1 <= rest[l - 1];
          if k > 0 {
            assert o[k] == rest[k - 1];
          }
        }
        assert i in o;
      } else {
        assert o == rest;
      }
    }
  }

  /** The positions of the posts that yield a bounty. */
  ghost function Origins(posts: seq<Post>): seq<nat> {
    OriginsFrom(posts, 0)
  }

  /** The bounties are exactly those of the parseable posts, in the posts' order: each comes
      from a post at a strictly later position than the one before, and every parseable post
      is the origin of one. */
  lemma ParsePostsOrigins(posts: seq<Post>)
    ensures var idx := Origins(posts);
      |idx| == |ParsePosts(posts)|
      && (forall k :: 0 <= k < |idx| ==>
            idx[k] < |posts| && Parseable(posts[idx[k]]) && ParsePosts(posts)[k] == ToBounty(posts[idx[k]]).value)
      && (forall k, l :: 0 <= k < l < |idx| ==> idx[k] < idx[l])
      && (forall j :: 0 <= j < |posts| && Parseable(posts[j]) ==> j in idx)
  {
    OriginsFromIndex(posts, 0);
    OriginsFromOrder(posts, 0);
    assert posts[0..] == posts;
  }

  /** When every post is parseable, nothing is dropped and positions are kept. */
  lemma {:induction false} ParsePostsKeepsAll(posts: seq<Post>)
    requires forall j :: 0 <= j < |posts| ==> Parseable(posts[j])
    ensures |ParsePosts(posts)| == |posts|
    ensures forall k :: 0 <= k < |posts| ==> ToBounty(posts[k]) == Some(ParsePosts(posts)[k])
    decreases |posts|
  {
    if posts != [] {
      assert forall j :: 0 <= j < |posts[1..]| ==> posts[1..][j] == posts[j + 1];
      ParsePostsKeepsAll(posts[1..]);
    }
  }

  /** A post whose metadata does not parse, or lacks `bounty`, is dropped wherever it stands:
      the list is what it would be without that post. */
  lemma ParsePostsDropsOne(xs: seq<Post>, p: Post, ys: seq<Post>)
    requires !Parseable(p)
    ensures ParsePosts(xs + [p] + ys) == ParsePosts(xs + ys)
  {
    var a, b, c := ParsePosts(xs), ParsePosts([p]), ParsePosts(ys);
    ParsePostsCons(p, []);
    assert [p] + [] == [p];
    assert b == [];
    ParsePostsAppend(xs, [p]);
    assert ParsePosts(xs + [p]) == a + b == a;
    ParsePostsAppend(xs + [p], ys);
    ParsePostsAppend(xs, ys);
  }

  /** When no post is parseable, nothing is read. */
  lemma {:induction false} ParsePostsDropsAll(posts: seq<Post>)
    requires forall j :: 0 <= j < |posts| ==> !Parseable(posts[j])
    ensures ParsePosts(posts) == []
    decreases |posts|
  {
    if posts != [] {
      assert forall j :: 0 <= j < |posts[1..]| ==> posts[1..][j] == posts[j + 1];
      ParsePostsDropsAll(posts[1..]);
    }
  }

  // ---------------------------------------------------------------------------
  // The sample bounties

  /** The timestamps the two sample bounties take when the module is loaded: creation times
      and deadlines 14 and 21 days later, as ISO text. */
  datatype SampleClock = SampleClock(created1: string, deadline1: string, created2: string, deadline2: string)

  /** `https://github.com/facebook/react/issues/`, the repository both samples link into. */
  const SampleIssues: string := GithubUrl.GithubPrefix + "facebook" + "/" + "react" + "/" + "issues" + "/"
  const SampleLink1: string := SampleIssues + "24502"
  const SampleLink2: string := SampleIssues + "16116"

  const SampleId1: string := "sample-bounty-123"
  const SampleId2: string := "sample-bounty-456"

  const SampleDescription1: string :=
    "There is an issue with the navigation component where clicking the back button twice causes the app to crash. This needs to be fixed by properly handling the navigation history and preventing multiple back actions in quick succession."
  const SampleDescription2: string :=
    "Add a dark mode feature to the application that respects the user's system preferences and allows manual toggling. This should include updating the color scheme and saving the preference."

  function SampleBounties(clock: SampleClock): seq<Bounty> {
    [ Bounty(SampleId1, "Fix Navigation Bug in React App", SampleDescription1, "10", "HIVE", "devbounties",
             DefaultStatus, clock.created1, Some(clock.deadline1), SampleLink1),
      Bounty(SampleId2, "Implement Dark Mode in React App", SampleDescription2, "15", "HIVE", "devbounties",
             DefaultStatus, clock.created2, Some(clock.deadline2), SampleLink2) ]
  }

  /** The samples are two open bounties with distinct ids whose links are issue links the
      create-bounty form accepts. */
  lemma SampleBountiesShape(clock: SampleClock)
    ensures var s := SampleBounties(clock);
      |s| == 2 && s[0].id != s[1].id && s[0].status == DefaultStatus && s[1].status == DefaultStatus
      && GithubUrl.ValidateGithubUrl(s[0].githubLink) && GithubUrl.ValidateGithubUrl(s[1].githubLink)
  {
    SampleLinksAccepted();
    var s := SampleBounties(clock);
    assert s[0].githubLink == SampleLink1 && s[1].githubLink == SampleLink2;
    assert s[0].id == SampleId1 && s[1].id == SampleId2;
    assert SampleId1[14] != SampleId2[14];
  }

  lemma SampleLinksAccepted()
    ensures GithubUrl.ValidateGithubUrl(SampleLink1) && GithubUrl.ValidateGithubUrl(SampleLink2)
  {
    assert GithubUrl.IsNumber("24502") && GithubUrl.IsNumber("16116");
    SampleLinkAccepted("24502");
    SampleLinkAccepted("16116");
  }

  lemma SampleLinkAccepted(number: string)
    requires GithubUrl.IsNumber(number)
    ensures GithubUrl.ValidateGithubUrl(SampleIssues + number)
  {
    var l := GithubUrl.GithubLink("facebook", "react", GithubUrl.Issues, number);
    assert GithubUrl.IsOwner("facebook") by {
      forall i | 0 <= i < 8 ensures GithubUrl.IsOwnerChar("facebook"[i]) { }
    }
    assert GithubUrl.IsRepo("react") by {
      forall i | 0 <= i < 5 ensures GithubUrl.IsRepoChar("react"[i]) { }
    }
    GithubUrl.ParseComplete(l);
    assert GithubUrl.Render(l) == SampleIssues + number;
  }

  /** What `fetchBounties` leaves as the list: the samples followed by the bounties read from
      the listing, or the samples alone when the listing could not be obtained. */
  function FetchedList(samples: seq<Bounty>, response: Option<seq<Post>>): seq<Bounty> {
    match response
    case None => samples
    case Some(posts) => samples + ParsePosts(posts)
  }

  /** The samples always come first and the listing's bounties follow, one per parseable post. */
  lemma FetchedListShape(samples: seq<Bounty>, response: Option<seq<Post>>)
    ensures var l := FetchedList(samples, response);
      |samples| <= |l| && l[..|samples|] == samples
      && |l| == |samples| + (if response.Some? then CountParseable(response.value) else 0)
    ensures var l := FetchedList(samples, response);
      l[|samples|..] == (if response.Some? then ParsePosts(response.value) else [])
  {
    if response.Some? {
      ParsePostsLength(response.value);
    }
  }

  // ---------------------------------------------------------------------------
  // Creating a bounty

  /** The argument of `createBounty`: a bounty without id, creator, status and creation date. */
  datatype BountyData = BountyData(title: string, description: string, amount: string, currency: string,
                                   deadline: Option<string>, githubLink: string)

  /** The memo of the escrow transfer: `{ type: 'bounty_creation', ...bountyData }`. */
  datatype BountyMemo = BountyMemo(kind: string, data: BountyData)

  datatype Transfer = Transfer(from: string, to: string, amount: string, memo: BountyMemo)

  function TransferFor(data: BountyData, username: string): Transfer {
    Transfer(username, EscrowAccount, data.amount, BountyMemo("bounty_creation", data))
  }

  /** How `sendHiveTokens(...)` ended: with a response, or by throwing. */
  datatype TransferOutcome =
    | Sent(success: bool, message: Option<string>)
    | TransferThrew(message: Option<string>)

  datatype CreateResult = CreateResult(success: bool, message: string)

  /** The result of `createBounty`: a reported failure is re-thrown as an `Error` carrying the
      response's message, so both failures end in the same handler and fall back to the
      default message when theirs is missing or empty. */
  function CreateResultFor(o: TransferOutcome): (r: CreateResult)
    ensures r.success <==> o.Sent? && o.success
    ensures r.success ==> r.message == Created
    ensures !r.success ==> r.message != []
    ensures !r.success && Truthy(o.message) ==> r.message == o.message.value
    ensures !r.success && !Truthy(o.message) ==> r.message == CreateFailed
  {
    match o
    case Sent(success, message) =>
      if success then CreateResult(true, Created) else CreateResult(false, OrElse(message, CreateFailed))
    case TransferThrew(message) => CreateResult(false, OrElse(message, CreateFailed))
  }

  /** The bounty added after a successful transfer; `nowMs` is the clock reading in
      milliseconds that names it and `createdAt` the ISO time of creation. */
  function NewBounty(data: BountyData, username: string, nowMs: nat, createdAt: string): Bounty {
    Bounty(IdPrefix + NatToString(nowMs), data.title, data.description, data.amount, data.currency, username,
           DefaultStatus, createdAt, data.deadline, data.githubLink)
  }

  /** A new bounty is open, belongs to the user who paid, carries the submitted fields, and is
      named after the clock: bounties created at different milliseconds have different ids. */
  lemma NewBountyShape(data: BountyData, username: string, nowMs: nat, createdAt: string, nowMs': nat)
    ensures var b := NewBounty(data, username, nowMs, createdAt);
      b.status == DefaultStatus && b.creator == username && b.title == data.title
      && b.description == data.description && b.amount == data.amount && b.currency == data.currency
      && b.githubLink == data.githubLink && b.deadline == data.deadline
      && b.id == IdPrefix + NatToString(nowMs) && b.id[..|IdPrefix|] == IdPrefix
    ensures nowMs != nowMs' ==> NewBounty(data, username, nowMs, createdAt).id != NewBounty(data, username, nowMs', createdAt).id
  {
    var b := NewBounty(data, username, nowMs, createdAt);
    assert b.id[..|IdPrefix|] == IdPrefix;
    if NewBounty(data, username, nowMs, createdAt).id == NewBounty(data, username, nowMs', createdAt).id {
      var t, t' := NatToString(nowMs), NatToString(nowMs');
      assert (IdPrefix + t)[|IdPrefix|..] == t;
      assert (IdPrefix + t')[|IdPrefix|..] == t';
      NatToStringInjective(nowMs, nowMs');
    }
  }

  // ---------------------------------------------------------------------------
  // The hook's state

  class BountyStore {
    /** The two samples, fixed when the module is loaded. */
    const samples: seq<Bounty>
    var bounties: seq<Bounty>
    var loading: bool
    var error: Option<string>

    constructor(clock: SampleClock)
      ensures samples == SampleBounties(clock)
      ensures bounties == samples && loading && error.None?
    {
      samples := SampleBounties(clock);
      bounties := SampleBounties(clock);
      loading := true;
      error := None;
    }

    /** `fetchBounties` up to its `await`. */
    method BeginFetch()
      modifies this
      ensures loading && error.None? && bounties == old(bounties)
    {
      loading := true;
      error := None;
    }

    /** `fetchBounties` after its `await`, including the `finally`: `response` is the listing,
        or `None` when the request failed. */
    method CompleteFetch(response: Option<seq<Post>>)
      modifies this
      ensures bounties == FetchedList(samples, response)
      ensures !loading
      ensures error == (if response.None? then Some(FetchFailed) else old(error))
    {
      match response {
        case None =>
          error := Some(FetchFailed);
          bounties := samples;
        case Some(posts) =>
          bounties := samples + ParsePosts(posts);
      }
      loading := false;
    }

    /** The whole of `fetchBounties` for the given listing. */
    method FetchBounties(response: Option<seq<Post>>)
      modifies this
      ensures bounties == FetchedList(samples, response)
      ensures !loading
      ensures error == (if response.None? then Some(FetchFailed) else None)
    {
      BeginFetch();
      CompleteFetch(response);
    }

    /** `createBounty(bountyData, username)`: the transfer to escrow is issued first; the list
        gains the new bounty at its head only when the transfer reports success, and is left
        as it was otherwise. */
    method CreateBounty(data: BountyData, username: string, outcome: TransferOutcome, nowMs: nat, createdAt: string)
      returns (transfer: Transfer, result: CreateResult)
      modifies this
      ensures transfer == TransferFor(data, username)
      ensures result == CreateResultFor(outcome)
      ensures result.success ==> bounties == [NewBounty(data, username, nowMs, createdAt)] + old(bounties)
      ensures !result.success ==> bounties == old(bounties)
      ensures loading == old(loading) && error == old(error)
    {
      transfer := TransferFor(data, username);
      match outcome {
        case TransferThrew(message) =>
          return transfer, CreateResult(false, OrElse(message, CreateFailed));
        case Sent(success, message) =>
          if !success {
            return transfer, CreateResult(false, OrElse(message, CreateFailed));
          }
      }
      bounties := [NewBounty(data, username, nowMs, createdAt)] + bounties;
      result := CreateResult(true, Created);
    }
  }
}
