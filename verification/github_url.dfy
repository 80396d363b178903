/** The create-bounty form's check on the GitHub link: the anchored pattern
    `^https://github.com/<owner>/<repo>/(issues|pull)/<digits>$`, written as a
    recogniser over the `/`-separated pieces of the text. */
module GithubUrl {
  import opened Text

  const GithubPrefix: string := "https://github.com/"

  /** `[a-zA-Z0-9-]` */
  predicate IsOwnerChar(c: char) { IsAsciiLetter(c) || IsDigit(c) || c == '-' }

  /** `[a-zA-Z0-9-._]` */
  predicate IsRepoChar(c: char) { IsOwnerChar(c) || c == '.' || c == '_' }

  predicate IsOwner(s: string) { |s| > 0 && forall i :: 0 <= i < |s| ==> IsOwnerChar(s[i]) }

  predicate IsRepo(s: string) { |s| > 0 && forall i :: 0 <= i < |s| ==> IsRepoChar(s[i]) }

  /** `\d+` */
  predicate IsNumber(s: string) { |s| > 0 && AllDigits(s) }

  datatype LinkKind = Issues | Pull

  function KindName(k: LinkKind): string {
    match k
    case Issues => "issues"
    case Pull => "pull"
  }

  /** The pieces an accepted link is made of. */
  datatype GithubLink = GithubLink(owner: string, repo: string, kind: LinkKind, number: string)

  predicate WellFormed(l: GithubLink) {
    IsOwner(l.owner) && IsRepo(l.repo) && IsNumber(l.number)
  }

  function Render(l: GithubLink): string {
    GithubPrefix + l.owner + "/" + l.repo + "/" + KindName(l.kind) + "/" + l.number
  }

  function Pieces(l: GithubLink): seq<string> {
    ["https:", "", "github.com", l.owner, l.repo, KindName(l.kind), l.number]
  }

  /** Reads a candidate link piece by piece; `None` is a text the pattern rejects. */
  function ParseGithubUrl(url: string): Option<GithubLink> {
    var p := Split(url, '/');
    if |p| == 7 && p[0] == "https:" && p[1] == "" && p[2] == "github.com"
       && IsOwner(p[3]) && IsRepo(p[4]) && (p[5] == "issues" || p[5] == "pull") && IsNumber(p[6])
    then Some(GithubLink(p[3], p[4], if p[5] == "issues" then Issues else Pull, p[6]))
    else None
  }

  /** `validateGithubUrl(url)` */
  predicate ValidateGithubUrl(url: string) {
    ParseGithubUrl(url).Some?
  }

  /** The segments after the prefix, joined by `/`. */
  function Path(l: GithubLink): string {
    l.owner + "/" + l.repo + "/" + KindName(l.kind) + "/" + l.number
  }

  lemma HostIsJoin()
    ensures Join(["https:", "", "github.com"], '/') + "/" == GithubPrefix
  {
    JoinCons("https:", ["", "github.com"], '/');
    assert ["https:"] + ["", "github.com"] == ["https:", "", "github.com"];
    JoinCons("", ["github.com"], '/');
    assert [""] + ["github.com"] == ["", "github.com"];
  }

  lemma RenderIsJoin(l: GithubLink)
    ensures Render(l) == GithubPrefix + Path(l)
    ensures Render(l) == Join(Pieces(l), '/')
  {
    var host := ["https:", "", "github.com"];
    var segs := [l.owner, l.repo, KindName(l.kind), l.number];
    assert Pieces(l) == host + segs;
    JoinAppend(host, segs, '/');
    HostIsJoin();
    JoinFour(l.owner, l.repo, KindName(l.kind), l.number, '/');
    var h, p := Join(host, '/'), Join(segs, '/');
    assert p == Path(l);
    assert Join(Pieces(l), '/') == h + ['/'] + p;
    assert h + ['/'] == GithubPrefix;
    assert Render(l) == GithubPrefix + Path(l);
  }

  lemma PiecesOfWellFormed(l: GithubLink)
    requires WellFormed(l)
    ensures forall k :: 0 <= k < 7 ==> '/' !in Pieces(l)[k]
  {
    assert forall i :: 0 <= i < |l.owner| ==> l.owner[i] != '/' by {
      forall i | 0 <= i < |l.owner| ensures l.owner[i] != '/' { assert IsOwnerChar(l.owner[i]); }
    }
    assert forall i :: 0 <= i < |l.repo| ==> l.repo[i] != '/' by {
      forall i | 0 <= i < |l.repo| ensures l.repo[i] != '/' { assert IsRepoChar(l.repo[i]); }
    }
    assert forall i :: 0 <= i < |l.number| ==> l.number[i] != '/' by {
      forall i | 0 <= i < |l.number| ensures l.number[i] != '/' { assert IsDigit(l.number[i]); }
    }
  }

  /** Every accepted text is exactly the rendering of well-formed pieces: the pattern is
      anchored at both ends, so nothing precedes the prefix and nothing follows the digits. */
  lemma ParseSound(url: string)
    requires ValidateGithubUrl(url)
    ensures WellFormed(ParseGithubUrl(url).value)
    ensures Render(ParseGithubUrl(url).value) == url
  {
    var l := ParseGithubUrl(url).value;
    var p := Split(url, '/');
    assert Pieces(l) == p;
    RenderIsJoin(l);
    JoinSplit(url, '/');
  }

  /** Every well-formed link is accepted, and reading it back gives the same pieces. */
  lemma ParseComplete(l: GithubLink)
    requires WellFormed(l)
    ensures ParseGithubUrl(Render(l)) == Some(l)
  {
    RenderIsJoin(l);
    PiecesOfWellFormed(l);
    SplitJoin(Pieces(l), '/');
  }

  /** An accepted link begins with `https://github.com/` and ends in a digit. */
  lemma AcceptedShape(url: string)
    requires ValidateGithubUrl(url)
    ensures |url| > |GithubPrefix| && url[..|GithubPrefix|] == GithubPrefix
    ensures IsDigit(url[|url| - 1])
  {
    var l := ParseGithubUrl(url).value;
    ParseSound(url);
    RenderIsJoin(l);
    PathEndsInNumber(l);
  }

  lemma PathEndsInNumber(l: GithubLink)
    requires WellFormed(l)
    ensures |Path(l)| > 0 && IsDigit(Path(l)[|Path(l)| - 1])
  {
    var front := l.owner + "/" + l.repo + "/" + KindName(l.kind) + "/";
    assert Path(l) == front + l.number;
  }

  /** Only digits may be appended to an accepted link without it being rejected:
      no trailing `/`, query string or fragment. */
  lemma NoTrailingText(url: string, t: string)
    requires ValidateGithubUrl(url) && ValidateGithubUrl(url + t)
    ensures AllDigits(t)
  {
    var pu, pt := Split(url, '/'), Split(t, '/');
    SplitConcat(url, t, '/');
    var whole := Split(url + t, '/');
    assert |whole| == 6 + |pt|;
    assert |pt| == 1;
    assert whole[6] == pu[6] + pt[0];
    JoinSplit(t, '/');
    assert t == pt[0];
    forall i | 0 <= i < |t| ensures IsDigit(t[i]) {
      assert t[i] == whole[6][|pu[6]| + i];
    }
  }

  /** Nothing may be put in front of an accepted link without it being rejected. */
  lemma NoLeadingText(t: string, url: string)
    requires ValidateGithubUrl(url) && ValidateGithubUrl(t + url)
    ensures t == []
  {
    var pt, pu := Split(t, '/'), Split(url, '/');
    SplitConcat(t, url, '/');
    var whole := Split(t + url, '/');
    assert |whole| == |pt| + 6;
    assert |pt| == 1;
    assert whole[0] == pt[0] + pu[0];
    assert |pt[0] + pu[0]| == |pu[0]|;
    JoinSplit(t, '/');
  }
}
