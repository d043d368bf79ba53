# GitHub Issue Assistant: issue fetch, prompt and analysis endpoint in Dafny

The GitHub Issue Assistant backend takes a public repository URL and an issue
number. It makes four moves:

1. It locates the repository: the owner and the repository name are the first two
   `/`-separated segments of the URL's path.
2. It GETs the issue and then its comments from the GitHub REST API.
3. It classifies the issue response's status and normalises the two JSON
   payloads into `{title, body, comments}`.
4. It renders them into a fixed prompt template, sends the prompt to a Together AI
   chat model and returns the decoded JSON reply.

Any failure on the way becomes an HTTP 500 whose detail is the exception's
message.

This project models that core as pure functions:

- `Results`, `Exceptions` (`results.dfy`): `Option`, `Result`, and a Python
  exception reduced to what the code observes of it. That is its `str()` text, and
  the `response` attribute when there is one, with its truth value and body text.
- `Text` (`text.dfy`): the string primitives the code relies on, each
  characterised:
  - `str.strip` with one character;
  - `str.split` and `str.join` on a one-character separator;
  - `str(int)` and its inverse.
- `UrlParse` (`url_parse.dfy`): the `path` component of `urllib.parse.urlparse`,
  as CPython 3.12 computes it. It covers:
  - leading C0 and space stripping;
  - tab, CR and LF removal;
  - the scheme;
  - the `//netloc`;
  - `#fragment` and `?query`;
  - `;params`, for the schemes listed in `uses_params` (`rtsps` included).
- `GitHubClient` (`github_client.dfy`): `extract_owner_repo`, the two API URLs,
  the status classification and the normalisation of `fetch_issue_and_comments`.
  The two HTTP GETs are function parameters from URL to response or raised error.
  Each JSON payload is a datatype: an object with optional fields, another JSON
  value named by its Python type, or a decoding error. `Fetch` also returns the
  URLs it requested, in order.
- `LlmClient` (`llm_client.dfy`): `build_prompt` and `analyze_issue_with_llm`.
  The chat-completion call and `json.loads` are function parameters.
- `Api` (`api.dfy`): `read_root` and `analyze_issue`. The fetch and the analysis
  are function parameters. Each handled request also records the calls it made,
  so sequencing and the absence of a cache can be stated. `Pipeline` wires in
  `Fetch` and `AnalyzeIssueWithLlm` as deployed.

Some behaviours of the code are easy to overlook. The model keeps them as they are:

- The repository is taken from the first two path segments, and later segments
  are ignored. An empty repository segment (`/owner//x`) is accepted.
- Only statuses 404, 403 and 500 of the issue response are classified. Any other
  status, 401 or 502 included, goes on to JSON decoding. The comments response's
  status is never looked at.
- A JSON `null` title, body or comment passes through `.get` unchanged and is
  rendered as `None` in the prompt. Only absent keys become `""`.
- The model's decoded reply is returned as is, with no check of its fields.
- Nothing is cached or stored between requests.
- Only the Together AI backend is called.

## Model

| member | source | states |
|---|---|---|
| `Text.Strip` | backend/app/github_client.py:16 | `path.strip("/")`: the result neither starts nor ends with `/`, and a string that does neither is kept whole |
| `Text.Split` | backend/app/github_client.py:16 | `split("/")`: at least one piece, no piece holds the separator, joining the pieces gives the string back, and there is a single piece exactly when the separator is absent |
| `Text.SplitJoin` | backend/app/github_client.py:16 | splitting undoes joining when no piece contains the separator |
| `Text.Decimal` | backend/app/github_client.py:25 | `str(issue_number)` reads back as the same integer and holds only digits and a minus sign |
| `Text.DecimalCanonical` | backend/app/github_client.py:25 | `str(issue_number)` is the canonical numeral: it starts with `-` exactly when the number is negative, and its digits have no leading zero (so never `-0` or `042`) |
| `UrlParse.PathOf` | backend/app/github_client.py:15 | the parsed path never holds `#` or `?` |
| `UrlParse.PathOfPlainUrl` | backend/app/github_client.py:15 | for `https://host/path` with no whitespace, query, fragment or parameters, the parsed path is exactly `path` |
| `GitHubClient.OwnerRepoOfPath` | backend/app/github_client.py:16-19 | `ValueError("Invalid GitHub repo URL")` exactly when the stripped path has no `/`; otherwise the pair is `/`-free, and the stripped path is `owner/repo` or starts with `owner/repo/` |
| `GitHubClient.ExtractOwnerRepo` | backend/app/github_client.py:14-19 | for a whole URL: `ValueError("Invalid GitHub repo URL")` exactly when the stripped parsed path has no `/`; otherwise a `/`-free pair such that the stripped parsed path is `owner/repo` or starts with `owner/repo/` |
| `GitHubClient.OwnerRepoCharacterised` | backend/app/github_client.py:16-19 | conversely, any `/`-free pair that the stripped path equals or starts with (followed by `/`) is the pair returned |
| `GitHubClient.SurroundingSlashesIgnored` | backend/app/github_client.py:16 | a leading or trailing `/` on the path does not change the result |
| `GitHubClient.ShortPathsRejected` | backend/app/github_client.py:16-18 | the empty path and a lone owner, with or without slashes, raise the invalid-URL error |
| `GitHubClient.LaterSegmentsIgnored` | backend/app/github_client.py:16-19 | for `/owner/repo/rest`, segments after the second are ignored: the result is `(owner, repo)` when the repository segment is non-empty or `rest` holds a character other than `/`, and the invalid-URL error otherwise |
| `GitHubClient.OwnerRepoPath` | backend/app/github_client.py:16-19 | `/owner/repo` and `/owner/repo/` both name `(owner, repo)` |
| `GitHubClient.TrailingSlashIgnored` | backend/app/github_client.py:14-19 | `https://host/owner/repo` with or without a trailing slash names `(owner, repo)` |
| `GitHubClient.IssueUrlRoundTrip` | backend/app/github_client.py:25 | the issue URL that `IssueUrl` builds parses back to the owner, repository and issue number it was built from |
| `GitHubClient.CommentsUrlExtendsIssueUrl` | backend/app/github_client.py:25-26 | the comments URL that `CommentsUrl` builds starts with the issue URL and has exactly one more segment, `comments` |
| `GitHubClient.IssueStatusError` | backend/app/github_client.py:32-37 | an error is raised exactly for 404, 403 and 500, with no response attached |
| `GitHubClient.FirstNonObject` | backend/app/github_client.py:45 | the first comment item that is not an object, or the item count when all are objects |
| `GitHubClient.CommentBodies` | backend/app/github_client.py:45 | succeeds exactly when every item is an object; otherwise it raises the `AttributeError` of the first non-object; on success it keeps one body per item, in order, `""` where the key is absent |
| `GitHubClient.Normalise` | backend/app/github_client.py:39-46 | succeeds exactly when the issue is an object and the comments are an iterable of objects. Errors come in the code's order: the issue's decoding error, then the comments' decoding error, then the `AttributeError` of `.get` on a non-object issue, then the `TypeError` of a non-iterable comments payload, then the `AttributeError` of the first non-object comment. On success, title and body are the fields, or `""` when absent, and there is one comment body per item |
| `GitHubClient.PresentFieldsKept` | backend/app/github_client.py:43-44 | present fields, `null` included, pass through unchanged; an absent title and an absent body each become `""` |
| `GitHubClient.Fetch` | backend/app/github_client.py:22-46 | no request is made exactly when the URL is rejected, and the result is then the invalid-URL error; otherwise it requests the issue URL and then the comments URL, at most those two. A GET that raises ends the fetch with that exception: after one request the issue GET raised, and the comments GET is made only when the issue GET returned. Success comes only after both |
| `GitHubClient.StatusErrors` | backend/app/github_client.py:29-37 | statuses 404, 403 and 500 raise their own messages whatever the payloads, after both requests |
| `GitHubClient.OtherStatusesNormalised` | backend/app/github_client.py:32-46 | any other status yields the normalised payloads, and the comments status is not consulted |
| `LlmClient.Bullets` | backend/app/llm_client.py:58 | one `- ` line per comment, in order |
| `LlmClient.CommentsSection` | backend/app/llm_client.py:58 | the section is `No comments` exactly when there are no comments, and the newline-join of the bullets otherwise |
| `LlmClient.CommentsSectionLines` | backend/app/llm_client.py:58 | for comments without newlines, splitting the section on newlines gives the bullets back |
| `LlmClient.PromptIsLines` | backend/app/llm_client.py:57-64 | the prompt `build_prompt` renders is the newline-join of the template's lines: an empty line, the title line, the body line, the heading, the indented comments section, and a last indent |
| `LlmClient.TemplateIsJoin` | backend/app/llm_client.py:59-64 | the template's text is the newline-join of its lines, for any title, body and section |
| `LlmClient.PromptLinesRecovered` | backend/app/llm_client.py:59-64 | for a title and body without newlines, splitting the prompt recovers its lines |
| `LlmClient.TemplateLinesInjective` | backend/app/llm_client.py:59-64 | the template's lines determine the title line, the body line and the section |
| `LlmClient.SectionDeterminesComments` | backend/app/llm_client.py:58 | equal sections come from comments that render alike, when no comment holds a newline |
| `LlmClient.PromptDeterminesInputs` | backend/app/llm_client.py:57-64 | equal prompts come from inputs that render alike, when no field holds a newline: the template loses nothing |
| `LlmClient.Attempt` | backend/app/llm_client.py:69-79 | succeeds only when the call succeeded and returned a first choice with content; the result is then that content decoded |
| `LlmClient.WrapError` | backend/app/llm_client.py:80-84 | the new exception's message is `Together AI LLM error: ` plus the original message; the response text follows after `\nResponse: ` exactly when a truthy response was attached |
| `LlmClient.WrapErrorReadBack` | backend/app/llm_client.py:80-84 | when neither original message contains `\nResponse: `, equal wrapped messages come from equal original messages, equally with or without a truthy response, and with equal response texts |
| `LlmClient.WrapErrorAmbiguousWithMarker` | backend/app/llm_client.py:80-84 | a message that itself contains `\nResponse: ` wraps to the same text as a shorter message with a response attached, so the condition above cannot be dropped |
| `LlmClient.AnalyzeIssueWithLlm` | backend/app/llm_client.py:66-84 | the decoded content on success; every error is wrapped, carries the prefix, and has no response attached |
| `LlmClient.AnalysisOutcomes` | backend/app/llm_client.py:66-84 | a failed call, an empty choice list, missing content and a decoding error each give their own wrapped error; decoded content is returned unchanged |
| `Api.ReadRoot` | backend/app/main.py:8-10 | a one-key map whose `message` is the running notice |
| `Api.AnalyzeIssue` | backend/app/main.py:13-20 | fetch first; analyse only what was fetched, and only if the fetch succeeded; success exactly when both succeed; every failure is status 500 with the raised message as detail |
| `Api.Serve` | backend/app/main.py:13-20 | a run of requests, each met by its own GitHub and model behaviour: one reply per request, each the endpoint's reply to that request alone |
| `Api.OneFetchPerRequest` | backend/app/main.py:13-20 | there is no cache: n requests make exactly n fetches |
| `Api.RepeatedRequestRecomputed` | backend/app/main.py:13-20 | a repeated request fetches again, with the same arguments, and its reply is computed afresh from what the outside world answers the second time; it equals the first reply when the world answers alike |
| `Api.InvalidUrlIs500` | backend/app/main.py:13-20 | in `Pipeline`, the endpoint wired to the GitHub fetch and the Together analysis, an unusable repository URL gives a 500 with the invalid-URL message, and the model is never asked |
| `Api.NotFoundIs500` | backend/app/main.py:13-20 | in `Pipeline`, the endpoint wired to the GitHub fetch and the Together analysis, a missing issue gives a 500, not a 404, and the model is never asked |
| `Api.LlmFailureIs500` | backend/app/main.py:13-20 | in `Pipeline`, the endpoint wired to the GitHub fetch and the Together analysis, a failed model call gives a 500 whose detail is the wrapped message |
| `Api.SuccessReturnsDecodedContent` | backend/app/main.py:16-18 | on success the response body is the decoded first-choice content of the completion for the prompt built from the fetched issue |

## Left out

- Network I/O, `httpx`, `async` and the Together SDK are not modelled as code. Each
  call is a function parameter from request to response or raised exception.
  Timeouts, retries and concurrency are therefore outside the model.
- JSON decoding (`response.json()`, `json.loads`) is a parameter or a payload
  datatype. A non-string JSON value is carried with the text `str()` gives for
  it, not rendered by the model.
- `urlparse` errors for malformed IPv6 netlocs are not modelled. Netloc
  validation and port parsing are not modelled either. Only the path is used.
- The request headers, the model name, `SYSTEM_PROMPT` and `response_format` are
  not modelled. They are constants of the call that do not affect the modelled
  results.
- The `TOGETHER_API_KEY` check at import time (`backend/app/llm_client.py` lines
  9-12) is not modelled, because it is environment configuration.
- FastAPI's request validation (the 422 for a body that is not an
  `IssueRequest`) and the HTTP framing are not modelled. Neither are exceptions
  that are not `Exception`s, since `except Exception` does not catch them.
- The commented-out endpoints in `backend/app/main.py` are not modelled, because
  they are dead code.
- `backend/app/models.py`, `backend/app/database.py` and the frontend are not part
  of this model. Their history and storage are not reachable from the
  endpoints.
- `build_prompt` is pure by construction here. That it does not mutate its
  arguments is not stated separately.
