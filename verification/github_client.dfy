/** The repository locator and issue fetcher: `extract_owner_repo` and
    `fetch_issue_and_comments`, with the two HTTP GETs and the JSON decoding
    taken as inputs. */
module GitHubClient {
  import opened Results
  import opened Exceptions
  import Text
  import UrlParse

  const ApiBase := "https://api.github.com"

  const InvalidRepoUrl := "Invalid GitHub repo URL"
  const IssueNotFound := "Issue not found. It might be disabled or private."
  const AccessDenied := "Access denied or rate limited. Try again later."
  const ServerError := "GitHub server error. Try again later."

  /** A JSON value read from a field: a string, `null` (which Python reads as
      `None`), or any other value together with the text `str()` gives for it. */
  datatype Value = Str(s: string) | Null | Other(shown: string)

  /** What `issue_response.json()` yields: an object, of which only `title`
      and `body` are read (`None` when the key is absent); some other JSON
      value, named by its Python type; or a decoding error. */
  datatype IssuePayload =
    | IssueObject(title: Option<Value>, body: Option<Value>)
    | IssueNotObject(typeName: string)
    | IssueUndecodable(error: Exc)

  /** One element produced by iterating over the comments payload. */
  datatype CommentItem =
    | CommentObject(body: Option<Value>)
    | CommentNotObject(typeName: string)

  /** What `comments_response.json()` yields. `Iterable` lists what a `for`
      loop over it produces: the elements of an array, but also the keys (all
      of type `str`) of an object such as an error message. */
  datatype CommentsPayload =
    | Iterable(items: seq<CommentItem>)
    | NotIterable(typeName: string)
    | CommentsUndecodable(error: Exc)

  datatype IssueResponse = IssueResponse(status: int, payload: IssuePayload)
  datatype CommentsResponse = CommentsResponse(status: int, payload: CommentsPayload)

  /** The normalised issue handed to the analyser. */
  datatype FetchedIssue = FetchedIssue(title: Value, body: Value, comments: seq<Value>)

  /** The URLs requested, in order, and what the fetch returned or raised. */
  datatype FetchRun = FetchRun(requested: seq<string>, result: Result<FetchedIssue, Exc>)

  /** The `AttributeError` of calling `.get` on something that is not a dict. */
  function NoAttributeGet(typeName: string): Exc {
    Raise("'" + typeName + "' object has no attribute 'get'")
  }

  /** The `TypeError` of iterating over a value that cannot be iterated. */
  function NotIterableError(typeName: string): Exc {
    Raise("'" + typeName + "' object is not iterable")
  }

  // ---------------------------------------------------------------------------
  // Repository locator

  /** Owner and repository from an already-parsed URL path: strip `/` at both
      ends, split on `/`, and take the first two segments. */
  function OwnerRepoOfPath(path: string): (r: Result<(string, string), Exc>)
    ensures r.Err? <==> '/' !in Text.Strip(path, '/')
    ensures r.Err? ==> r.error == Raise(InvalidRepoUrl)
    ensures r.Ok? ==> '/' !in r.value.0 && '/' !in r.value.1
    ensures r.Ok? ==>
      var lead := r.value.0 + "/" + r.value.1;
      var p := Text.Strip(path, '/');
      p == lead || lead + "/" <= p
  {
    var parts := Text.Split(Text.Strip(path, '/'), '/');
    if |parts| < 2 then Err(Raise(InvalidRepoUrl))
    else
      Text.JoinLead(parts, '/');
      Ok((parts[0], parts[1]))
  }

  /** `extract_owner_repo`: the owner and repository named by a URL. */
  function ExtractOwnerRepo(repoUrl: string): (r: Result<(string, string), Exc>)
    ensures r.Err? <==> '/' !in Text.Strip(UrlParse.PathOf(repoUrl), '/')
    ensures r.Err? ==> r.error == Raise(InvalidRepoUrl)
    ensures r.Ok? ==> '/' !in r.value.0 && '/' !in r.value.1
    ensures r.Ok? ==>
      var lead := r.value.0 + "/" + r.value.1;
      var p := Text.Strip(UrlParse.PathOf(repoUrl), '/');
      p == lead || lead + "/" <= p
  {
    OwnerRepoOfPath(UrlParse.PathOf(repoUrl))
  }

  /** The owner and repository are determined by the stripped path: they are
      the unique `/`-free pair it starts with, followed by nothing or by `/`. */
  lemma {:induction false} OwnerRepoCharacterised(path: string, owner: string, repo: string)
    requires '/' !in owner && '/' !in repo
    requires
      var lead := owner + "/" + repo;
      var p := Text.Strip(path, '/');
      p == lead || lead + "/" <= p
    ensures OwnerRepoOfPath(path) == Ok((owner, repo))
  {
    var lead := owner + "/" + repo;
    var p := Text.Strip(path, '/');
    if p == lead {
      SplitOwnerRepo(owner, repo, p);
    } else {
      SplitOwnerRepoMore(owner, repo, p);
    }
  }

  lemma SplitOwnerRepo(owner: string, repo: string, p: string)
    requires '/' !in owner && '/' !in repo
    requires p == owner + "/" + repo
    ensures Text.Split(p, '/') == [owner, repo]
  {
    Text.SplitCons(owner, repo, '/');
    Text.SplitNoSep(repo, '/');
  }

  lemma SplitOwnerRepoMore(owner: string, repo: string, p: string)
    requires '/' !in owner && '/' !in repo
    requires owner + "/" + repo + "/" <= p
    ensures var parts := Text.Split(p, '/');
      |parts| >= 2 && parts[0] == owner && parts[1] == repo
  {
    var tail := p[|owner| + |repo| + 2..];
    assert p == owner + "/" + (repo + "/" + tail);
    Text.SplitCons(owner, repo + "/" + tail, '/');
    Text.SplitCons(repo, tail, '/');
  }

  /** Slashes around the path make no difference. */
  lemma SurroundingSlashesIgnored(path: string)
    ensures OwnerRepoOfPath("/" + path) == OwnerRepoOfPath(path)
    ensures OwnerRepoOfPath(path + "/") == OwnerRepoOfPath(path)
  {
    Text.StripIgnoresLeading(path, '/');
    Text.StripIgnoresTrailing(path, '/');
  }

  /** A path with fewer than two segments is rejected: the bare host, and a
      lone owner with or without slashes around it. */
  lemma ShortPathsRejected(owner: string)
    requires '/' !in owner
    ensures OwnerRepoOfPath("") == Err(Raise(InvalidRepoUrl))
    ensures OwnerRepoOfPath("/" + owner) == Err(Raise(InvalidRepoUrl))
    ensures OwnerRepoOfPath("/" + owner + "/") == Err(Raise(InvalidRepoUrl))
  {
    assert Text.Strip(owner, '/') == owner;
    SurroundingSlashesIgnored(owner);
    SurroundingSlashesIgnored("/" + owner);
  }

  /** Segments after the second are ignored, and an empty second segment is
      accepted when something other than `/` follows it: `/a//b` names owner
      `a` and repository `""`, while `/a//` is rejected. */
  lemma {:induction false} LaterSegmentsIgnored(owner: string, repo: string, rest: string)
    requires '/' !in owner && '/' !in repo && owner != ""
    ensures var r := OwnerRepoOfPath("/" + owner + "/" + repo + "/" + rest);
      if repo != "" || exists k :: 0 <= k < |rest| && rest[k] != '/'
      then r == Ok((owner, repo))
      else r == Err(Raise(InvalidRepoUrl))
  {
    var lead := owner + "/" + repo;
    var p := lead + "/" + rest;
    LaterSegmentsShape(owner, repo, rest, lead, p);
    SurroundingSlashesIgnored(p);
    if repo != "" {
      RepoKept(owner, repo, rest, lead, p);
      OwnerRepoCharacterised(p, owner, repo);
    } else if k :| 0 <= k < |rest| && rest[k] != '/' {
      RestKept(lead, rest, p, k);
      OwnerRepoCharacterised(p, owner, repo);
    } else {
      OwnerAlone(owner, rest, p);
    }
  }

  /** `owner/repo/rest` does not start with `/`, so stripping it only trims its
      end. */
  lemma LaterSegmentsShape(owner: string, repo: string, rest: string, lead: string, p: string)
    requires owner != "" && '/' !in owner
    requires lead == owner + "/" + repo && p == lead + "/" + rest
    ensures Text.Strip(p, '/') == Text.TrimRight(p, '/')
    ensures "/" + owner + "/" + repo + "/" + rest == "/" + p
  {
    assert p[0] == owner[0];
    assert Text.TrimLeft(p, '/') == p;
  }

  /** A non-empty repository segment survives the trimming. */
  lemma RepoKept(owner: string, repo: string, rest: string, lead: string, p: string)
    requires repo != "" && '/' !in repo && lead == owner + "/" + repo
    requires p == lead + "/" + rest
    ensures var q := Text.TrimRight(p, '/'); q == lead || lead + "/" <= q
  {
    assert p[|lead| - 1] == repo[|repo| - 1];
    KeptUpTo(p, |lead| - 1);
    KeptLead(p, lead, rest);
  }

  /** A character other than `/` after the second segment keeps its `/`. */
  lemma RestKept(lead: string, rest: string, p: string, k: int)
    requires p == lead + "/" + rest && 0 <= k < |rest| && rest[k] != '/'
    ensures var q := Text.TrimRight(p, '/'); q == lead || lead + "/" <= q
  {
    assert p[|lead| + 1 + k] == rest[k];
    KeptUpTo(p, |lead| + 1 + k);
    KeptLead(p, lead, rest);
  }

  /** With an empty repository segment and only slashes after it, trimming
      leaves the owner alone. */
  lemma OwnerAlone(owner: string, rest: string, p: string)
    requires owner != "" && '/' !in owner
    requires forall k :: 0 <= k < |rest| ==> rest[k] == '/'
    requires p == owner + "/" + "" + "/" + rest
    ensures Text.TrimRight(p, '/') == owner
  {
    var q := Text.TrimRight(p, '/');
    assert p[|owner| - 1] == owner[|owner| - 1];
    KeptUpTo(p, |owner| - 1);
    assert forall i :: |owner| <= i < |p| ==> p[i] == '/';
  }

  /** Trimming the end of `p` keeps every character up to one that is not `/`. */
  lemma KeptUpTo(p: string, j: int)
    requires 0 <= j < |p| && p[j] != '/'
    ensures |Text.TrimRight(p, '/')| > j
  {
  }

  lemma KeptLead(p: string, lead: string, rest: string)
    requires p == lead + "/" + rest
    requires |Text.TrimRight(p, '/')| >= |lead|
    ensures var q := Text.TrimRight(p, '/'); q == lead || lead + "/" <= q
  {
    var q := Text.TrimRight(p, '/');
    assert p[..|lead| + 1] == lead + "/";
    if |q| > |lead| {
      assert q[..|lead| + 1] == p[..|lead| + 1];
    } else {
      assert q == p[..|lead|] == lead;
    }
  }

  /** The path of `https://host/owner/repo`, with or without a trailing
      slash. */
  lemma RepoUrlPath(host: string, owner: string, repo: string, slash: string)
    requires UrlParse.Plain(host) && '/' !in host
    requires UrlParse.Plain(owner) && UrlParse.Plain(repo)
    requires slash == "" || slash == "/"
    ensures UrlParse.PathOf("https://" + host + "/" + owner + "/" + repo + slash)
         == "/" + owner + "/" + repo + slash
  {
    var path := "/" + owner + "/" + repo + slash;
    var url := "https://" + host + "/" + owner + "/" + repo + slash;
    PlainRepoPath(owner, repo, slash);
    RepoUrlShape(host, owner, repo, slash);
    UrlParse.PathOfPlainUrl(url, host, path);
  }

  lemma RepoUrlShape(host: string, owner: string, repo: string, slash: string)
    ensures "https://" + host + "/" + owner + "/" + repo + slash
         == "https://" + host + ("/" + owner + "/" + repo + slash)
  {
  }

  lemma PlainRepoPath(owner: string, repo: string, slash: string)
    requires UrlParse.Plain(owner) && UrlParse.Plain(repo)
    requires slash == "" || slash == "/"
    ensures UrlParse.Plain("/" + owner + "/" + repo + slash)
  {
    assert UrlParse.Plain("/");
    assert UrlParse.Plain(slash);
    UrlParse.PlainConcat("/", owner);
    UrlParse.PlainConcat("/" + owner, "/");
    UrlParse.PlainConcat("/" + owner + "/", repo);
    UrlParse.PlainConcat("/" + owner + "/" + repo, slash);
  }

  /** `/owner/repo` names exactly that pair, with or without a trailing slash. */
  lemma {:induction false} OwnerRepoPath(owner: string, repo: string)
    requires '/' !in owner && '/' !in repo && owner != "" && repo != ""
    ensures OwnerRepoOfPath("/" + owner + "/" + repo) == Ok((owner, repo))
    ensures OwnerRepoOfPath("/" + owner + "/" + repo + "/") == Ok((owner, repo))
  {
    var p := owner + "/" + repo;
    OwnerRepoShape(owner, repo, p);
    OwnerRepoCharacterised(p, owner, repo);
    SurroundingSlashesIgnored(p);
    SurroundingSlashesIgnored("/" + p);
  }

  lemma OwnerRepoShape(owner: string, repo: string, p: string)
    requires owner != "" && repo != "" && owner[0] != '/' && repo[|repo| - 1] != '/'
    requires p == owner + "/" + repo
    ensures Text.Strip(p, '/') == p
    ensures "/" + owner + "/" + repo == "/" + p
    ensures "/" + owner + "/" + repo + "/" == "/" + p + "/"
  {
    assert p[0] == owner[0] && p[|p| - 1] == repo[|repo| - 1];
  }

  /** A repository URL names the same owner and repository with or without a
      trailing slash. */
  lemma TrailingSlashIgnored(host: string, owner: string, repo: string)
    requires UrlParse.Plain(host) && '/' !in host
    requires UrlParse.Plain(owner) && UrlParse.Plain(repo)
    requires '/' !in owner && '/' !in repo && owner != "" && repo != ""
    ensures ExtractOwnerRepo("https://" + host + "/" + owner + "/" + repo) == Ok((owner, repo))
    ensures ExtractOwnerRepo("https://" + host + "/" + owner + "/" + repo + "/") == Ok((owner, repo))
  {
    RepoUrlPath(host, owner, repo, "");
    assert "https://" + host + "/" + owner + "/" + repo + "" == "https://" + host + "/" + owner + "/" + repo;
    assert "/" + owner + "/" + repo + "" == "/" + owner + "/" + repo;
    RepoUrlPath(host, owner, repo, "/");
    OwnerRepoPath(owner, repo);
  }

  // ---------------------------------------------------------------------------
  // Issue and comments URLs

  function IssueUrl(owner: string, repo: string, issueNumber: int): string {
    ApiBase + "/repos/" + owner + "/" + repo + "/issues/" + Text.Decimal(issueNumber)
  }

  function CommentsUrl(issueUrl: string): string {
    issueUrl + "/comments"
  }

  /** Reads owner, repository and issue number back from an issue URL. */
  function ParseIssueUrl(u: string): Option<(string, string, int)> {
    var parts := Text.Split(u, '/');
    if |parts| == 8 && parts[0] == "https:" && parts[1] == "" && parts[2] == "api.github.com"
       && parts[3] == "repos" && parts[6] == "issues"
    then
      match Text.ParseDecimal(parts[7])
      case Some(n) => Some((parts[4], parts[5], n))
      case None => None
    else None
  }

  /** The `/`-separated segments of the issue URL. */
  function IssueUrlSegments(owner: string, repo: string, issueNumber: int): seq<string> {
    ["https:", "", "api.github.com", "repos", owner, repo, "issues", Text.Decimal(issueNumber)]
  }

  lemma RepoPrefixIsJoin()
    ensures Text.Join(["https:", "", "api.github.com", "repos"], '/') == ApiBase + "/repos"
  {
    Text.JoinCons("api.github.com", ["repos"], '/');
    Text.JoinCons("", ["api.github.com", "repos"], '/');
    Text.JoinCons("https:", ["", "api.github.com", "repos"], '/');
  }

  lemma TailIsJoin(owner: string, repo: string, d: string)
    ensures Text.Join([owner, repo, "issues", d], '/') == owner + "/" + repo + "/issues/" + d
  {
    Text.JoinCons("issues", [d], '/');
    Text.JoinCons(repo, ["issues", d], '/');
    Text.JoinCons(owner, [repo, "issues", d], '/');
  }

  lemma {:induction false} IssueUrlIsJoin(owner: string, repo: string, issueNumber: int)
    ensures Text.Join(IssueUrlSegments(owner, repo, issueNumber), '/') == IssueUrl(owner, repo, issueNumber)
  {
    var d := Text.Decimal(issueNumber);
    var head := ["https:", "", "api.github.com", "repos"];
    var tail := [owner, repo, "issues", d];
    TailIsJoin(owner, repo, d);
    RepoPrefixIsJoin();
    Text.JoinAppend(head, tail, '/');
    assert IssueUrlSegments(owner, repo, issueNumber) == head + tail;
  }

  lemma SegmentsSlashFree(owner: string, repo: string, issueNumber: int)
    requires '/' !in owner && '/' !in repo
    ensures forall i :: 0 <= i < 8 ==> '/' !in IssueUrlSegments(owner, repo, issueNumber)[i]
  {
    var d := Text.Decimal(issueNumber);
    assert forall k :: 0 <= k < |d| ==> d[k] != '/';
  }

  /** The issue URL names exactly the owner, repository and issue number it
      was built from, as long as owner and repository hold no `/` (which
      `ExtractOwnerRepo` guarantees). */
  lemma IssueUrlRoundTrip(owner: string, repo: string, issueNumber: int)
    requires '/' !in owner && '/' !in repo
    ensures ParseIssueUrl(IssueUrl(owner, repo, issueNumber)) == Some((owner, repo, issueNumber))
  {
    IssueUrlIsJoin(owner, repo, issueNumber);
    SegmentsSlashFree(owner, repo, issueNumber);
    Text.SplitJoin(IssueUrlSegments(owner, repo, issueNumber), '/');
  }

  /** The comments URL is the issue URL with one more segment, `comments`. */
  lemma CommentsUrlExtendsIssueUrl(owner: string, repo: string, issueNumber: int)
    requires '/' !in owner && '/' !in repo
    ensures IssueUrl(owner, repo, issueNumber) <= CommentsUrl(IssueUrl(owner, repo, issueNumber))
    ensures Text.Split(CommentsUrl(IssueUrl(owner, repo, issueNumber)), '/')
         == IssueUrlSegments(owner, repo, issueNumber) + ["comments"]
  {
    var s := IssueUrlSegments(owner, repo, issueNumber);
    var u := IssueUrl(owner, repo, issueNumber);
    IssueUrlIsJoin(owner, repo, issueNumber);
    SegmentsSlashFree(owner, repo, issueNumber);
    Text.JoinAppend(s, ["comments"], '/');
    var all := s + ["comments"];
    assert Text.Join(all, '/') == CommentsUrl(u);
    forall i | 0 <= i < |all|
      ensures '/' !in all[i]
    {
      if i < 8 {
        assert all[i] == s[i];
      }
    }
    Text.SplitJoin(all, '/');
  }

  // ---------------------------------------------------------------------------
  // Status classification and normalisation

  /** The error raised for the issue response's status, if any. */
  function IssueStatusError(status: int): (e: Option<Exc>)
    ensures e.Some? <==> status == 404 || status == 403 || status == 500
    ensures e.Some? ==> e.value.response.None?
  {
    if status == 404 then Some(Raise(IssueNotFound))
    else if status == 403 then Some(Raise(AccessDenied))
    else if status == 500 then Some(Raise(ServerError))
    else None
  }

  /** The position of the first comment item that is not an object, or the
      number of items when all are. */
  function FirstNonObject(items: seq<CommentItem>): (k: nat)
    ensures k <= |items|
    ensures k < |items| ==> items[k].CommentNotObject?
    ensures forall i :: 0 <= i < k ==> items[i].CommentObject?
  {
    if |items| == 0 || items[0].CommentNotObject? then 0 else 1 + FirstNonObject(items[1..])
  }

  /** `[comment.get("body", "") for comment in items]`. */
  function CommentBodies(items: seq<CommentItem>): (r: Result<seq<Value>, Exc>)
    ensures r.Ok? <==> FirstNonObject(items) == |items|
    ensures r.Err? ==> r.error == NoAttributeGet(items[FirstNonObject(items)].typeName)
    ensures r.Ok? ==> |r.value| == |items|
    ensures r.Ok? ==> forall i :: 0 <= i < |items| ==> r.value[i] == GetOr(items[i].body, Str(""))
  {
    if |items| == 0 then Ok([])
    else
      match items[0]
      case CommentNotObject(t) => Err(NoAttributeGet(t))
      case CommentObject(b) =>
        match CommentBodies(items[1..])
        case Err(e) => Err(e)
        case Ok(rest) => Ok([GetOr(b, Str(""))] + rest)
  }

  /** Decode both payloads, then build the normalised issue. */
  function Normalise(issue: IssuePayload, comments: CommentsPayload): (r: Result<FetchedIssue, Exc>)
    ensures r.Ok? <==>
      issue.IssueObject? && comments.Iterable? && FirstNonObject(comments.items) == |comments.items|
    ensures issue.IssueUndecodable? ==> r == Err(issue.error)
    ensures !issue.IssueUndecodable? && comments.CommentsUndecodable? ==> r == Err(comments.error)
    ensures issue.IssueNotObject? && !comments.CommentsUndecodable? ==> r == Err(NoAttributeGet(issue.typeName))
    ensures issue.IssueObject? && comments.NotIterable? ==> r == Err(NotIterableError(comments.typeName))
    ensures issue.IssueObject? && comments.Iterable? && FirstNonObject(comments.items) < |comments.items| ==>
      r == Err(NoAttributeGet(comments.items[FirstNonObject(comments.items)].typeName))
    ensures r.Ok? ==> (r.value.title == GetOr(issue.title, Str("")) && r.value.body == GetOr(issue.body, Str("")))
    ensures r.Ok? ==> |r.value.comments| == |comments.items|
    ensures r.Ok? ==> forall i :: 0 <= i < |comments.items| ==>
      r.value.comments[i] == GetOr(comments.items[i].body, Str(""))
  {
    if issue.IssueUndecodable? then Err(issue.error)
    else if comments.CommentsUndecodable? then Err(comments.error)
    else if issue.IssueNotObject? then Err(NoAttributeGet(issue.typeName))
    else if comments.NotIterable? then Err(NotIterableError(comments.typeName))
    else
      match CommentBodies(comments.items)
      case Err(e) => Err(e)
      case Ok(bodies) =>
        Ok(FetchedIssue(GetOr(issue.title, Str("")), GetOr(issue.body, Str("")), bodies))
  }

  /** Present fields pass through unchanged, `null` included; only absent
      keys become the empty string. */
  lemma PresentFieldsKept(t: Value, b: Value, comments: seq<CommentItem>)
    requires FirstNonObject(comments) == |comments|
    ensures Normalise(IssueObject(Some(t), Some(b)), Iterable(comments)).value.title == t
    ensures Normalise(IssueObject(Some(t), Some(b)), Iterable(comments)).value.body == b
    ensures Normalise(IssueObject(None, None), Iterable(comments)).value.title == Str("")
    ensures Normalise(IssueObject(None, None), Iterable(comments)).value.body == Str("")
  {
  }

  // ---------------------------------------------------------------------------
  // The fetch

  /** `fetch_issue_and_comments`: locate the repository, GET the issue and
      then its comments, classify the issue status, and normalise. The GETs
      are the functions `issueAt` and `commentsAt` from URL to response or
      raised transport error. */
  function Fetch(repoUrl: string, issueNumber: int,
                 issueAt: string -> Result<IssueResponse, Exc>,
                 commentsAt: string -> Result<CommentsResponse, Exc>): (run: FetchRun)
    ensures run.requested == [] <==> ExtractOwnerRepo(repoUrl).Err?
    ensures run.requested == [] ==> run.result == Err(Raise(InvalidRepoUrl))
    ensures |run.requested| <= 2
    ensures |run.requested| >= 1 ==>
      var (owner, repo) := ExtractOwnerRepo(repoUrl).value;
      run.requested[0] == IssueUrl(owner, repo, issueNumber)
      && (|run.requested| == 2 ==> run.requested[1] == CommentsUrl(run.requested[0]))
    ensures |run.requested| == 1 ==>
      issueAt(run.requested[0]).Err? && run.result == Err(issueAt(run.requested[0]).error)
    ensures |run.requested| == 2 ==> issueAt(run.requested[0]).Ok?
    ensures |run.requested| == 2 && commentsAt(run.requested[1]).Err? ==>
      run.result == Err(commentsAt(run.requested[1]).error)
    ensures run.result.Ok? ==> |run.requested| == 2
  {
    match ExtractOwnerRepo(repoUrl)
    case Err(e) => FetchRun([], Err(e))
    case Ok((owner, repo)) =>
      var issueUrl := IssueUrl(owner, repo, issueNumber);
      var commentsUrl := CommentsUrl(issueUrl);
      match issueAt(issueUrl)
      case Err(e) => FetchRun([issueUrl], Err(e))
      case Ok(issueResponse) =>
        match commentsAt(commentsUrl)
        case Err(e) => FetchRun([issueUrl, commentsUrl], Err(e))
        case Ok(commentsResponse) =>
          var result :=
            match IssueStatusError(issueResponse.status)
            case Some(e) => Err(e)
            case None => Normalise(issueResponse.payload, commentsResponse.payload);
          FetchRun([issueUrl, commentsUrl], result)
  }

  /** The two answers `Fetch` would get for a locatable repository URL. */
  predicate Answered(repoUrl: string, issueNumber: int,
                     issueAt: string -> Result<IssueResponse, Exc>,
                     commentsAt: string -> Result<CommentsResponse, Exc>,
                     issue: IssueResponse, comments: CommentsResponse)
  {
    && ExtractOwnerRepo(repoUrl).Ok?
    && var (owner, repo) := ExtractOwnerRepo(repoUrl).value;
       var u := IssueUrl(owner, repo, issueNumber);
       issueAt(u) == Ok(issue) && commentsAt(CommentsUrl(u)) == Ok(comments)
  }

  /** Issue status 404, 403 and 500 each raise their own error, whatever the
      payloads say and after both requests were made. */
  lemma StatusErrors(repoUrl: string, issueNumber: int,
                     issueAt: string -> Result<IssueResponse, Exc>,
                     commentsAt: string -> Result<CommentsResponse, Exc>,
                     issue: IssueResponse, comments: CommentsResponse)
    requires Answered(repoUrl, issueNumber, issueAt, commentsAt, issue, comments)
    ensures issue.status == 404 ==> Fetch(repoUrl, issueNumber, issueAt, commentsAt).result == Err(Raise(IssueNotFound))
    ensures issue.status == 403 ==> Fetch(repoUrl, issueNumber, issueAt, commentsAt).result == Err(Raise(AccessDenied))
    ensures issue.status == 500 ==> Fetch(repoUrl, issueNumber, issueAt, commentsAt).result == Err(Raise(ServerError))
    ensures |Fetch(repoUrl, issueNumber, issueAt, commentsAt).requested| == 2
  {
  }

  /** Any other issue status, 200 or 401 or 502 alike, goes on to
      normalisation, and the comments status is never looked at. */
  lemma OtherStatusesNormalised(repoUrl: string, issueNumber: int,
                                issueAt: string -> Result<IssueResponse, Exc>,
                                commentsAt: string -> Result<CommentsResponse, Exc>,
                                issue: IssueResponse, comments: CommentsResponse)
    requires Answered(repoUrl, issueNumber, issueAt, commentsAt, issue, comments)
    requires issue.status !in {404, 403, 500}
    ensures Fetch(repoUrl, issueNumber, issueAt, commentsAt).result == Normalise(issue.payload, comments.payload)
  {
  }
}
