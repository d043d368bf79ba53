/** The HTTP endpoints: `read_root` and `analyze_issue`. The fetch and the
    analysis are taken as functions, and each handled request records the
    calls it made, so that sequencing and the absence of any cache can be
    stated. */
module Api {
  import opened Results
  import opened Exceptions
  import GitHubClient
  import LlmClient

  const RootMessage := "GitHub Issue Assistant API is running"

  /** The body of `POST /analyze-issue`. */
  datatype IssueRequest = IssueRequest(repoUrl: string, issueNumber: int)

  /** A response: the analyser's value with status 200, or an `HTTPException`. */
  datatype Reply<J> = Success(body: J) | HttpError(status: int, detail: string)

  /** A call made while handling a request. */
  datatype Call = FetchCall(repoUrl: string, issueNumber: int) | AnalyseCall(issue: GitHubClient.FetchedIssue)

  datatype Handled<J> = Handled(reply: Reply<J>, calls: seq<Call>)

  /** `GET /`: the same single-key message for every call. */
  function ReadRoot(): (r: map<string, string>)
    ensures r.Keys == {"message"} && r["message"] == RootMessage
  {
    map["message" := RootMessage]
  }

  /** `POST /analyze-issue`: fetch, then analyse what was fetched, and turn
      whatever either raises into status 500 carrying `str(e)`. */
  function AnalyzeIssue<J>(req: IssueRequest,
                           fetch: (string, int) -> Result<GitHubClient.FetchedIssue, Exc>,
                           analyse: GitHubClient.FetchedIssue -> Result<J, Exc>): (h: Handled<J>)
    ensures 1 <= |h.calls| <= 2 && h.calls[0] == FetchCall(req.repoUrl, req.issueNumber)
    ensures |h.calls| == 2 <==> fetch(req.repoUrl, req.issueNumber).Ok?
    ensures |h.calls| == 2 ==> h.calls[1] == AnalyseCall(fetch(req.repoUrl, req.issueNumber).value)
    ensures h.reply.Success? <==>
      fetch(req.repoUrl, req.issueNumber).Ok? && analyse(fetch(req.repoUrl, req.issueNumber).value).Ok?
    ensures h.reply.Success? ==> h.reply.body == analyse(fetch(req.repoUrl, req.issueNumber).value).value
    ensures h.reply.HttpError? ==> h.reply.status == 500
    ensures fetch(req.repoUrl, req.issueNumber).Err? ==>
      h.reply == HttpError(500, fetch(req.repoUrl, req.issueNumber).error.text)
    ensures fetch(req.repoUrl, req.issueNumber).Ok? && analyse(fetch(req.repoUrl, req.issueNumber).value).Err? ==>
      h.reply == HttpError(500, analyse(fetch(req.repoUrl, req.issueNumber).value).error.text)
  {
    var fetchCall := FetchCall(req.repoUrl, req.issueNumber);
    match fetch(req.repoUrl, req.issueNumber)
    case Err(e) => Handled(HttpError(500, e.text), [fetchCall])
    case Ok(issue) =>
      var calls := [fetchCall, AnalyseCall(issue)];
      match analyse(issue)
      case Err(e) => Handled(HttpError(500, e.text), calls)
      case Ok(result) => Handled(Success(result), calls)
  }

  /** What the outside world answers while one request is handled: GitHub,
      through the fetch, and the model, through the analysis. Each request of
      a run meets its own, because the issue can change between requests and
      the completion is sampled afresh. */
  datatype World<J> = World(fetch: (string, int) -> Result<GitHubClient.FetchedIssue, Exc>,
                            analyse: GitHubClient.FetchedIssue -> Result<J, Exc>)

  /** A run of requests, each handled on its own against the world as it is
      at that moment: nothing is kept between them. */
  function Serve<J>(reqs: seq<IssueRequest>, worlds: seq<World<J>>): (hs: seq<Handled<J>>)
    requires |worlds| == |reqs|
    ensures |hs| == |reqs|
    ensures forall i :: 0 <= i < |reqs| ==> hs[i] == AnalyzeIssue(reqs[i], worlds[i].fetch, worlds[i].analyse)
  {
    if |reqs| == 0 then []
    else [AnalyzeIssue(reqs[0], worlds[0].fetch, worlds[0].analyse)] + Serve(reqs[1..], worlds[1..])
  }

  /** All calls of a run, in order. */
  function AllCalls<J>(hs: seq<Handled<J>>): seq<Call> {
    if |hs| == 0 then [] else hs[0].calls + AllCalls(hs[1..])
  }

  function CountFetches(calls: seq<Call>): nat {
    if |calls| == 0 then 0
    else (if calls[0].FetchCall? then 1 else 0) + CountFetches(calls[1..])
  }

  lemma {:induction false} CountFetchesAppend(a: seq<Call>, b: seq<Call>)
    ensures CountFetches(a + b) == CountFetches(a) + CountFetches(b)
    decreases |a|
  {
    if |a| == 0 {
      assert a + b == b;
    } else {
      assert (a + b)[1..] == a[1..] + b;
      CountFetchesAppend(a[1..], b);
    }
  }

  /** There is no cache: a run of n requests fetches exactly n times, however
      often a request repeats. */
  lemma {:induction false} OneFetchPerRequest<J>(reqs: seq<IssueRequest>, worlds: seq<World<J>>)
    requires |worlds| == |reqs|
    ensures CountFetches(AllCalls(Serve(reqs, worlds))) == |reqs|
    decreases |reqs|
  {
    if |reqs| > 0 {
      var hs := Serve(reqs, worlds);
      var h := hs[0];
      assert hs[1..] == Serve(reqs[1..], worlds[1..]);
      OneFetchPerRequest(reqs[1..], worlds[1..]);
      CountFetchesAppend(h.calls, AllCalls(hs[1..]));
      assert CountFetches(h.calls) == 1 by {
        assert h.calls[0].FetchCall?;
        if |h.calls| == 2 {
          assert h.calls[1..][1..] == [];
          assert !h.calls[1].FetchCall?;
        }
      }
    }
  }

  /** Repeating a request asks GitHub again with the same arguments; the two
      replies agree when GitHub and the model answered alike both times, and
      otherwise each reflects its own answers. */
  lemma RepeatedRequestRecomputed<J>(req: IssueRequest, worlds: seq<World<J>>)
    requires |worlds| == 2
    ensures
      var hs := Serve([req, req], worlds);
      && hs[0].calls[0] == FetchCall(req.repoUrl, req.issueNumber)
      && hs[1].calls[0] == FetchCall(req.repoUrl, req.issueNumber)
      && AllCalls(hs) == hs[0].calls + hs[1].calls
      && hs[1] == AnalyzeIssue(req, worlds[1].fetch, worlds[1].analyse)
      && (worlds[0].fetch == worlds[1].fetch && worlds[0].analyse == worlds[1].analyse ==> hs[0] == hs[1])
  {
    var hs := Serve([req, req], worlds);
    assert hs[1..][1..] == [];
    assert AllCalls(hs[1..][1..]) == [];
  }

  /** The service as deployed: the GitHub fetch and the Together analysis. */
  function Pipeline<J>(req: IssueRequest,
                       issueAt: string -> Result<GitHubClient.IssueResponse, Exc>,
                       commentsAt: string -> Result<GitHubClient.CommentsResponse, Exc>,
                       complete: string -> Result<LlmClient.Completion, Exc>,
                       loads: string -> Result<J, Exc>): Handled<J>
  {
    AnalyzeIssue(req,
      (u: string, n: int) => GitHubClient.Fetch(u, n, issueAt, commentsAt).result,
      (issue: GitHubClient.FetchedIssue) => LlmClient.AnalyzeIssueWithLlm(issue, complete, loads))
  }

  /** An unusable repository URL is a 500 naming it, and the model is never
      asked. */
  lemma InvalidUrlIs500<J>(req: IssueRequest,
                           issueAt: string -> Result<GitHubClient.IssueResponse, Exc>,
                           commentsAt: string -> Result<GitHubClient.CommentsResponse, Exc>,
                           complete: string -> Result<LlmClient.Completion, Exc>,
                           loads: string -> Result<J, Exc>)
    requires GitHubClient.ExtractOwnerRepo(req.repoUrl).Err?
    ensures Pipeline(req, issueAt, commentsAt, complete, loads)
         == Handled(HttpError(500, GitHubClient.InvalidRepoUrl), [FetchCall(req.repoUrl, req.issueNumber)])
  {
  }

  /** A missing issue is a 500 as well, not a 404, and the model is never
      asked. */
  lemma NotFoundIs500<J>(req: IssueRequest,
                         issueAt: string -> Result<GitHubClient.IssueResponse, Exc>,
                         commentsAt: string -> Result<GitHubClient.CommentsResponse, Exc>,
                         complete: string -> Result<LlmClient.Completion, Exc>,
                         loads: string -> Result<J, Exc>,
                         issue: GitHubClient.IssueResponse, comments: GitHubClient.CommentsResponse)
    requires GitHubClient.Answered(req.repoUrl, req.issueNumber, issueAt, commentsAt, issue, comments)
    requires issue.status == 404
    ensures Pipeline(req, issueAt, commentsAt, complete, loads)
         == Handled(HttpError(500, GitHubClient.IssueNotFound), [FetchCall(req.repoUrl, req.issueNumber)])
  {
    GitHubClient.StatusErrors(req.repoUrl, req.issueNumber, issueAt, commentsAt, issue, comments);
  }

  /** A failure of the model call is a 500 whose detail is the wrapped
      message. */
  lemma LlmFailureIs500<J>(req: IssueRequest,
                           issueAt: string -> Result<GitHubClient.IssueResponse, Exc>,
                           commentsAt: string -> Result<GitHubClient.CommentsResponse, Exc>,
                           complete: string -> Result<LlmClient.Completion, Exc>,
                           loads: string -> Result<J, Exc>)
    requires GitHubClient.Fetch(req.repoUrl, req.issueNumber, issueAt, commentsAt).result.Ok?
    requires
      var issue := GitHubClient.Fetch(req.repoUrl, req.issueNumber, issueAt, commentsAt).result.value;
      complete(LlmClient.BuildPrompt(issue.title, issue.body, issue.comments)).Err?
    ensures
      var issue := GitHubClient.Fetch(req.repoUrl, req.issueNumber, issueAt, commentsAt).result.value;
      var e := complete(LlmClient.BuildPrompt(issue.title, issue.body, issue.comments)).error;
      Pipeline(req, issueAt, commentsAt, complete, loads)
        == Handled(HttpError(500, LlmClient.WrapError(e).text),
                   [FetchCall(req.repoUrl, req.issueNumber), AnalyseCall(issue)])
  {
  }

  /** On success the decoded model output is the response body, unchanged. */
  lemma SuccessReturnsDecodedContent<J>(req: IssueRequest,
                                        issueAt: string -> Result<GitHubClient.IssueResponse, Exc>,
                                        commentsAt: string -> Result<GitHubClient.CommentsResponse, Exc>,
                                        complete: string -> Result<LlmClient.Completion, Exc>,
                                        loads: string -> Result<J, Exc>)
    requires Pipeline(req, issueAt, commentsAt, complete, loads).reply.Success?
    ensures
      var fetched := GitHubClient.Fetch(req.repoUrl, req.issueNumber, issueAt, commentsAt).result;
      && fetched.Ok?
      && var prompt := LlmClient.BuildPrompt(fetched.value.title, fetched.value.body, fetched.value.comments);
         && complete(prompt).Ok?
         && |complete(prompt).value.choices| > 0
         && complete(prompt).value.choices[0].content.Some?
         && Success(loads(complete(prompt).value.choices[0].content.value).value)
            == Pipeline(req, issueAt, commentsAt, complete, loads).reply
  {
  }
}
