/** The pattern `github\.com\/([^\/]+)\/([^\/]+)\/pull\/(\d+)` that the claim flow runs,
    unanchored, over a pasted pull-request link to read its owner, repository and number.
    The pattern is a sequence of literals and greedy groups; a group is always followed by a
    literal whose first character lies outside the group's class (or ends the pattern), so
    matching never needs to backtrack and the match at each position is unique. */
module PrLink {
  import opened Text
  import GithubUrl

  const HostMarker: string := "github.com/"
  const PullMarker: string := "/pull/"

  /** The classes the pattern's groups use: `[^\/]` and `\d`. */
  datatype CharClass = NotSlash | Digit

  predicate InClass(c: CharClass, ch: char) {
    match c
    case NotSlash => ch != '/'
    case Digit => IsDigit(ch)
  }

  predicate AllInClass(c: CharClass, t: string) {
    forall k :: 0 <= k < |t| ==> InClass(c, t[k])
  }

  /** One element of a pattern: literal text, or a captured greedy run `(<class>+)`. */
  datatype Element = Literal(text: string) | Group(cls: CharClass)

  const PrPattern: seq<Element> :=
    [Literal(HostMarker), Group(NotSlash), Literal("/"), Group(NotSlash), Literal(PullMarker), Group(Digit)]

  /** `groups` holds one non-empty run of the right class for each group of `pat`. */
  predicate Fits(pat: seq<Element>, groups: seq<string>)
    decreases |pat|
  {
    if pat == [] then groups == []
    else match pat[0]
      case Literal(_) => Fits(pat[1..], groups)
      case Group(c) => groups != [] && |groups[0]| > 0 && AllInClass(c, groups[0]) && Fits(pat[1..], groups[1..])
  }

  /** The text `pat` matches when its groups capture `groups`. */
  function Render(pat: seq<Element>, groups: seq<string>): string
    requires Fits(pat, groups)
    decreases |pat|
  {
    if pat == [] then []
    else match pat[0]
      case Literal(t) => t + Render(pat[1..], groups)
      case Group(_) => groups[0] + Render(pat[1..], groups[1..])
  }

  /** Every group is followed by a non-empty literal that starts outside its class, or ends
      the pattern: a greedy run then stops exactly where the next literal begins. */
  predicate Greedy(pat: seq<Element>)
    decreases |pat|
  {
    pat == [] ||
    ((pat[0].Group? && |pat| > 1 ==>
        pat[1].Literal? && pat[1].text != [] && !InClass(pat[0].cls, pat[1].text[0]))
     && Greedy(pat[1..]))
  }

  /** The end of the run of characters of class `c` that starts at `i`. */
  function RunEnd(c: CharClass, s: string, i: nat): (j: nat)
    requires i <= |s|
    ensures i <= j <= |s|
    ensures forall k :: i <= k < j ==> InClass(c, s[k])
    ensures j < |s| ==> !InClass(c, s[j])
    decreases |s| - i
  {
    if i == |s| || !InClass(c, s[i]) then i else RunEnd(c, s, i + 1)
  }

  /** What a match captured, and where it ends. */
  datatype Capture = Capture(groups: seq<string>, end: nat)

  /** The match of `pat` that starts at position `i`, if any; each group takes the longest
      run of its class, and a run of length zero fails. */
  function MatchFrom(pat: seq<Element>, s: string, i: nat): (m: Option<Capture>)
    requires i <= |s|
    ensures m.Some? ==> i <= m.value.end <= |s|
    decreases |pat|
  {
    if pat == [] then Some(Capture([], i))
    else match pat[0]
      case Literal(t) => if OccursAt(t, s, i) then MatchFrom(pat[1..], s, i + |t|) else None
      case Group(c) =>
        var e := RunEnd(c, s, i);
        if e == i then None
        else match MatchFrom(pat[1..], s, e)
          case None => None
          case Some(rest) => Some(Capture([s[i..e]] + rest.groups, rest.end))
  }

  /** A match captures groups the pattern can capture, and what it spans is their rendering. */
  lemma {:induction false} MatchSound(pat: seq<Element>, s: string, i: nat)
    requires i <= |s| && MatchFrom(pat, s, i).Some?
    ensures var c := MatchFrom(pat, s, i).value;
      Fits(pat, c.groups) && OccursAt(Render(pat, c.groups), s, i) && c.end == i + |Render(pat, c.groups)|
    decreases |pat|
  {
    var c := MatchFrom(pat, s, i).value;
    if pat != [] {
      match pat[0]
      case Literal(t) =>
        MatchSound(pat[1..], s, i + |t|);
        OccursAtConcat(t, Render(pat[1..], c.groups), s, i);
      case Group(cls) =>
        var e := RunEnd(cls, s, i);
        var rest := MatchFrom(pat[1..], s, e).value;
        MatchSound(pat[1..], s, e);
        var g := s[i..e];
        assert c.groups == [g] + rest.groups;
        assert c.groups[0] == g && c.groups[1..] == rest.groups;
        RunSound(cls, s, i, e, Render(pat[1..], rest.groups));
        assert Fits(pat, c.groups);
        assert Render(pat, c.groups) == g + Render(pat[1..], rest.groups);
    }
  }

  /** A run of a class followed by an occurrence of `r`: the run is in the class, and the two
      together occur where the run starts. */
  lemma RunSound(cls: CharClass, s: string, i: nat, e: nat, r: string)
    requires i <= e <= |s| && forall k :: i <= k < e ==> InClass(cls, s[k])
    requires OccursAt(r, s, e)
    ensures AllInClass(cls, s[i..e])
    ensures OccursAt(s[i..e] + r, s, i)
  {
    var g := s[i..e];
    forall k | 0 <= k < |g| ensures InClass(cls, g[k]) {
      assert g[k] == s[i + k];
    }
    assert OccursAt(g, s, i);
    OccursAtConcat(g, r, s, i);
  }

  /** Where the rendering of capturable groups occurs, the pattern matches: every group but the
      last is captured exactly, and the last one captured may run on past its given text. */
  lemma {:induction false} MatchComplete(pat: seq<Element>, s: string, i: nat, groups: seq<string>)
    requires i <= |s| && Fits(pat, groups) && Greedy(pat) && OccursAt(Render(pat, groups), s, i)
    ensures MatchFrom(pat, s, i).Some?
    ensures var c := MatchFrom(pat, s, i).value;
      |c.groups| == |groups|
      && (forall k :: 0 <= k < |groups| ==> groups[k] <= c.groups[k])
      && (forall k :: 0 <= k < |groups| - 1 ==> c.groups[k] == groups[k])
    decreases |pat|, 2
  {
    if pat != [] {
      match pat[0]
      case Literal(t) =>
        OccursAtConcat(t, Render(pat[1..], groups), s, i);
        MatchComplete(pat[1..], s, i + |t|, groups);
      case Group(_) =>
        MatchCompleteGroup(pat, s, i, groups);
    }
  }

  /** The case of `MatchComplete` where the pattern starts with a group. */
  lemma {:induction false} MatchCompleteGroup(pat: seq<Element>, s: string, i: nat, groups: seq<string>)
    requires i <= |s| && Fits(pat, groups) && Greedy(pat) && OccursAt(Render(pat, groups), s, i)
    requires pat != [] && pat[0].Group?
    ensures MatchFrom(pat, s, i).Some?
    ensures var c := MatchFrom(pat, s, i).value;
      |c.groups| == |groups|
      && (forall k :: 0 <= k < |groups| ==> groups[k] <= c.groups[k])
      && (forall k :: 0 <= k < |groups| - 1 ==> c.groups[k] == groups[k])
    decreases |pat|, 1
  {
    if |pat| > 1 {
      MatchCompleteInner(pat, s, i, groups);
    } else {
      MatchCompleteLast(pat, s, i, groups);
    }
  }

  /** A group followed by more pattern: its run stops where the next literal begins. */
  lemma {:induction false} MatchCompleteInner(pat: seq<Element>, s: string, i: nat, groups: seq<string>)
    requires i <= |s| && Fits(pat, groups) && Greedy(pat) && OccursAt(Render(pat, groups), s, i)
    requires |pat| > 1 && pat[0].Group?
    ensures MatchFrom(pat, s, i).Some?
    ensures var c := MatchFrom(pat, s, i).value;
      |c.groups| == |groups|
      && (forall k :: 0 <= k < |groups| ==> groups[k] <= c.groups[k])
      && (forall k :: 0 <= k < |groups| - 1 ==> c.groups[k] == groups[k])
    decreases |pat|, 0
  {
    var cls := pat[0].cls;
    var g := groups[0];
    var tail := Render(pat[1..], groups[1..]);
    assert Render(pat, groups) == g + tail;
    var t := pat[1].text;
    assert tail == t + Render(pat[2..], groups[1..]) by { assert pat[1..][1..] == pat[2..]; }
    GroupStops(cls, s, i, g, t, Render(pat[2..], groups[1..]));
    GroupRuns(cls, s, i, g, tail);
    var e := RunEnd(cls, s, i);
    MatchComplete(pat[1..], s, e, groups[1..]);
    var rest := MatchFrom(pat[1..], s, e).value;
    var c := MatchFrom(pat, s, i).value;
    assert c.groups == [g] + rest.groups;
    ConsCaptures(g, groups[1..], rest.groups);
    assert [g] + groups[1..] == groups;
  }

  /** A group that ends the pattern: its run extends the group's text. */
  lemma MatchCompleteLast(pat: seq<Element>, s: string, i: nat, groups: seq<string>)
    requires i <= |s| && Fits(pat, groups) && Greedy(pat) && OccursAt(Render(pat, groups), s, i)
    requires |pat| == 1 && pat[0].Group?
    ensures MatchFrom(pat, s, i).Some?
    ensures var c := MatchFrom(pat, s, i).value;
      |c.groups| == |groups|
      && (forall k :: 0 <= k < |groups| ==> groups[k] <= c.groups[k])
      && (forall k :: 0 <= k < |groups| - 1 ==> c.groups[k] == groups[k])
  {
    var cls := pat[0].cls;
    var g := groups[0];
    var tail := Render(pat[1..], groups[1..]);
    assert Render(pat, groups) == g + tail;
    GroupRuns(cls, s, i, g, tail);
    var e := RunEnd(cls, s, i);
    assert pat[1..] == [] && groups[1..] == [];
    assert MatchFrom(pat[1..], s, e) == Some(Capture([], e));
    assert s[i..e][..|g|] == s[i..i + |g|];
  }

  /** Putting the same first capture in front keeps "each capture extends the given one, and
      all but the last equal it". */
  lemma ConsCaptures(g: string, given: seq<string>, got: seq<string>)
    requires |got| == |given|
    requires forall k :: 0 <= k < |given| ==> given[k] <= got[k]
    requires forall k :: 0 <= k < |given| - 1 ==> got[k] == given[k]
    ensures forall k :: 0 <= k < |given| + 1 ==> ([g] + given)[k] <= ([g] + got)[k]
    ensures forall k :: 0 <= k < |given| ==> ([g] + got)[k] == ([g] + given)[k]
  {
    forall k | 0 < k < |given| + 1 ensures ([g] + given)[k] <= ([g] + got)[k] {
      assert ([g] + given)[k] == given[k - 1] && ([g] + got)[k] == got[k - 1];
    }
    forall k | 0 < k < |given| ensures ([g] + got)[k] == ([g] + given)[k] {
      assert ([g] + given)[k] == given[k - 1] && ([g] + got)[k] == got[k - 1];
    }
  }

  /** A group's text at `i` lies inside the run of its class from `i`. */
  lemma GroupRuns(cls: CharClass, s: string, i: nat, g: string, tail: string)
    requires i <= |s| && OccursAt(g + tail, s, i) && AllInClass(cls, g)
    ensures OccursAt(g, s, i) && OccursAt(tail, s, i + |g|)
    ensures RunEnd(cls, s, i) >= i + |g|
  {
    OccursAtConcat(g, tail, s, i);
    forall k | i <= k < i + |g| ensures InClass(cls, s[k]) {
      assert s[i..i + |g|][k - i] == s[k];
    }
    RunCovers(cls, s, i, i + |g|);
  }

  /** When the next literal starts outside the class, the run ends exactly with the group. */
  lemma GroupStops(cls: CharClass, s: string, i: nat, g: string, t: string, more: string)
    requires i <= |s| && OccursAt(g + (t + more), s, i) && AllInClass(cls, g)
    requires t != [] && !InClass(cls, t[0])
    ensures RunEnd(cls, s, i) == i + |g| && s[i..i + |g|] == g
  {
    GroupRuns(cls, s, i, g, t + more);
    assert s[i + |g|] == t[0] by {
      assert s[i + |g|..i + |g| + |t + more|][0] == (t + more)[0];
    }
  }

  lemma {:induction false} RunCovers(c: CharClass, s: string, i: nat, j: nat)
    requires i <= j <= |s|
    requires forall k :: i <= k < j ==> InClass(c, s[k])
    ensures RunEnd(c, s, i) >= j
    decreases j - i
  {
    if i < j { RunCovers(c, s, i + 1, j); }
  }

  // ---------------------------------------------------------------------------
  // The pull-request pattern

  datatype PrRef = PrRef(owner: string, repo: string, number: string)

  predicate WellFormedPrRef(r: PrRef) {
    |r.owner| > 0 && '/' !in r.owner && |r.repo| > 0 && '/' !in r.repo && |r.number| > 0 && AllDigits(r.number)
  }

  /** The text the pattern matches for the given groups. */
  function PrText(r: PrRef): string {
    HostMarker + r.owner + "/" + r.repo + PullMarker + r.number
  }

  lemma NotSlashIff(t: string)
    ensures AllInClass(NotSlash, t) <==> '/' !in t
  {
    if '/' in t {
      var k :| 0 <= k < |t| && t[k] == '/';
      assert !InClass(NotSlash, t[k]);
    }
  }

  /** The pattern's groups are exactly the well-formed owner, repository and number. */
  lemma PrFits(groups: seq<string>)
    ensures Fits(PrPattern, groups) <==> |groups| == 3 && WellFormedPrRef(PrRef(groups[0], groups[1], groups[2]))
  {
    var p := PrPattern;
    assert Fits(p, groups) == Fits(p[1..], groups);
    assert p[1..][1..] == p[2..];
    assert p[2..][1..] == p[3..];
    assert p[3..][1..] == p[4..];
    assert p[4..][1..] == p[5..];
    assert p[5..][1..] == [];
    if groups != [] {
      var g1 := groups[1..];
      assert Fits(p[2..], g1) == Fits(p[3..], g1);
      if g1 != [] {
        var g2 := g1[1..];
        assert Fits(p[4..], g2) == Fits(p[5..], g2);
        if g2 != [] {
          assert Fits(p[5..], g2) == (|g2[0]| > 0 && AllInClass(Digit, g2[0]) && g2[1..] == []);
          assert g1[0] == groups[1] && g2[0] == groups[2];
          assert g2[1..] == [] <==> |groups| == 3;
        }
      }
    }
    if |groups| >= 2 {
      NotSlashIff(groups[0]);
      NotSlashIff(groups[1]);
    }
  }

  lemma PrTextIsRender(r: PrRef)
    requires WellFormedPrRef(r)
    ensures Fits(PrPattern, [r.owner, r.repo, r.number])
    ensures Render(PrPattern, [r.owner, r.repo, r.number]) == PrText(r)
  {
    var g := [r.owner, r.repo, r.number];
    PrFits(g);
    var p := PrPattern;
    assert p[1..][1..] == p[2..];
    assert p[2..][1..] == p[3..];
    assert p[3..][1..] == p[4..];
    assert p[4..][1..] == p[5..];
    assert p[5..][1..] == [];
    var g1, g2 := g[1..], g[2..];
    assert g1[1..] == g2 && g2[1..] == [];
    NotSlashIff(r.owner);
    NotSlashIff(r.repo);
    assert Fits(p[5..], g2);
    assert Fits(p[4..], g2);
    assert Fits(p[3..], g1);
    assert Fits(p[2..], g1);
    assert Fits(p[1..], g);
    assert Render(p[5..], g2) == r.number;
    assert Render(p[4..], g2) == PullMarker + r.number;
    assert Render(p[3..], g1) == r.repo + (PullMarker + r.number);
    assert Render(p[2..], g1) == "/" + (r.repo + (PullMarker + r.number));
    assert Render(p[1..], g) == r.owner + ("/" + (r.repo + (PullMarker + r.number)));
    assert Render(p, g) == HostMarker + (r.owner + ("/" + (r.repo + (PullMarker + r.number))));
  }

  lemma PrGreedy()
    ensures Greedy(PrPattern)
  {
    var p := PrPattern;
    assert p[1..][1..] == p[2..];
    assert p[2..][1..] == p[3..];
    assert p[3..][1..] == p[4..];
    assert p[4..][1..] == p[5..];
    assert p[5..][1..] == [];
    assert Greedy(p[5..]);
    assert Greedy(p[4..]);
    assert PullMarker[0] == '/';
    assert Greedy(p[3..]);
    assert Greedy(p[2..]);
    assert Greedy(p[1..]);
  }

  /** The match of the pull-request pattern that starts at position `i`, if any. */
  function MatchAt(s: string, i: nat): (m: Option<PrRef>)
    requires i <= |s|
    ensures m.Some? ==> WellFormedPrRef(m.value)
  {
    match MatchFrom(PrPattern, s, i)
    case None => None
    case Some(c) =>
      MatchSound(PrPattern, s, i);
      PrFits(c.groups);
      Some(PrRef(c.groups[0], c.groups[1], c.groups[2]))
  }

  datatype PrMatch = PrMatch(at: nat, ref: PrRef)

  /** The leftmost match at or after `from`. */
  function FirstMatch(s: string, from: nat): (m: Option<PrMatch>)
    requires from <= |s|
    ensures m.Some? ==> from <= m.value.at <= |s| && MatchAt(s, m.value.at) == Some(m.value.ref)
    ensures m.Some? ==> forall j :: from <= j < m.value.at ==> MatchAt(s, j).None?
    ensures m.None? ==> forall j :: from <= j <= |s| ==> MatchAt(s, j).None?
    decreases |s| - from
  {
    match MatchAt(s, from)
    case Some(r) => Some(PrMatch(from, r))
    case None => if from == |s| then None else FirstMatch(s, from + 1)
  }

  /** `prUrl.match(...)`: the groups of the leftmost match. */
  function ExtractPrRef(url: string): (r: Option<PrRef>)
    ensures r.Some? ==> WellFormedPrRef(r.value)
  {
    match FirstMatch(url, 0)
    case None => None
    case Some(m) => Some(m.ref)
  }

  /** A match is an occurrence of the matched text. */
  lemma MatchAtSound(s: string, i: nat)
    requires i <= |s| && MatchAt(s, i).Some?
    ensures OccursAt(PrText(MatchAt(s, i).value), s, i)
  {
    var r := MatchAt(s, i).value;
    var c := MatchFrom(PrPattern, s, i).value;
    MatchSound(PrPattern, s, i);
    PrFits(c.groups);
    assert c.groups == [r.owner, r.repo, r.number];
    PrTextIsRender(r);
  }

  /** An occurrence of a well-formed match text is found at its position: the same owner and
      repository, and a digit group that extends the number. */
  lemma MatchAtComplete(s: string, i: nat, r: PrRef)
    requires WellFormedPrRef(r) && OccursAt(PrText(r), s, i)
    ensures MatchAt(s, i).Some?
    ensures MatchAt(s, i).value.owner == r.owner && MatchAt(s, i).value.repo == r.repo
    ensures r.number <= MatchAt(s, i).value.number
  {
    var g := [r.owner, r.repo, r.number];
    PrTextIsRender(r);
    PrGreedy();
    MatchComplete(PrPattern, s, i, g);
    var c := MatchFrom(PrPattern, s, i).value;
    assert g[0] == c.groups[0] && g[1] == c.groups[1] && g[2] <= c.groups[2];
  }

  /** The extracted groups are well formed and their match text occurs in the link. */
  lemma ExtractSound(url: string)
    requires ExtractPrRef(url).Some?
    ensures WellFormedPrRef(ExtractPrRef(url).value)
    ensures Contains(url, PrText(ExtractPrRef(url).value))
  {
    var m := FirstMatch(url, 0).value;
    MatchAtSound(url, m.at);
  }

  /** If the link contains any well-formed match text anywhere, a match is found: the pattern
      is not anchored, so text around the match is allowed. */
  lemma ExtractComplete(url: string, r: PrRef)
    requires WellFormedPrRef(r) && Contains(url, PrText(r))
    ensures ExtractPrRef(url).Some?
  {
    var i :| 0 <= i <= |url| - |PrText(r)| && OccursAt(PrText(r), url, i);
    MatchAtComplete(url, i, r);
  }

  lemma EmbeddedLinkIsFound(before: string, r: PrRef, after: string)
    requires WellFormedPrRef(r)
    ensures ExtractPrRef(before + PrText(r) + after).Some?
  {
    var t := PrText(r);
    assert OccursAt(t, t, 0);
    ContainsExtended(t, t, before, after);
    ExtractComplete(before + t + after, r);
  }

  /** For a pull-request link the create-bounty form accepts, the extracted groups are that
      link's owner, repository and number. */
  lemma AcceptedPullLinkExtracts(l: GithubUrl.GithubLink)
    requires GithubUrl.WellFormed(l) && l.kind == GithubUrl.Pull
    ensures ExtractPrRef(GithubUrl.Render(l)) == Some(PrRef(l.owner, l.repo, l.number))
  {
    var url := GithubUrl.Render(l);
    var r := PrRef(l.owner, l.repo, l.number);
    PullLinkIsPrText(l);
    GithubUrl.PiecesOfWellFormed(l);
    assert GithubUrl.Pieces(l)[3] == l.owner && GithubUrl.Pieces(l)[4] == l.repo;
    assert WellFormedPrRef(r);
    WholeLinkMatches(r);
  }

  lemma PullLinkIsPrText(l: GithubUrl.GithubLink)
    requires l.kind == GithubUrl.Pull
    ensures GithubUrl.Render(l) == "https://" + PrText(PrRef(l.owner, l.repo, l.number))
  {
    var o, r, n := l.owner, l.repo, l.number;
    assert GithubUrl.KindName(l.kind) == "pull";
    assert GithubUrl.GithubPrefix == "https://" + HostMarker;
    assert PullMarker == "/" + "pull" + "/";
    calc {
      GithubUrl.Render(l);
      GithubUrl.GithubPrefix + o + "/" + r + "/" + "pull" + "/" + n;
      "https://" + (HostMarker + o + "/" + r + ("/" + "pull" + "/") + n);
      "https://" + PrText(PrRef(o, r, n));
    }
  }

  lemma NothingBeforeHost(t: string)
    ensures forall j :: 0 <= j < 8 ==> MatchAt("https://" + t, j).None?
  {
    var url := "https://" + t;
    forall j | 0 <= j < 8 ensures MatchAt(url, j).None? {
      assert url[j] == "https://"[j] != HostMarker[0];
      assert j + |HostMarker| <= |url| ==> url[j..j + |HostMarker|][0] == url[j];
    }
  }

  lemma WholeLinkMatches(r: PrRef)
    requires WellFormedPrRef(r)
    ensures ExtractPrRef("https://" + PrText(r)) == Some(r)
  {
    NothingBeforeHost(PrText(r));
    var url := "https://" + PrText(r);
    assert url[8..] == PrText(r);
    assert OccursAt(PrText(r), url, 8);
    MatchAtComplete(url, 8, r);
    var m := MatchAt(url, 8).value;
    MatchAtSound(url, 8);
    assert |PrText(m)| <= |url| - 8;
    assert |PrText(m)| - |m.number| == |PrText(r)| - |r.number|;
    assert m.number == r.number;
    FirstMatchFrom(url, 0, 8);
  }

  lemma FirstMatchFrom(url: string, from: nat, i: nat)
    requires from <= i <= |url| && MatchAt(url, i).Some?
    requires forall j :: from <= j < i ==> MatchAt(url, j).None?
    ensures FirstMatch(url, from) == Some(PrMatch(i, MatchAt(url, i).value))
  {
    var m := FirstMatch(url, from);
    assert m.Some? by { assert MatchAt(url, i).Some?; }
    assert m.value.at == i;
  }
}
