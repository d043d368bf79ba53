/** The analysis requester: `build_prompt` and `analyze_issue_with_llm`. The
    chat-completion call and `json.loads` are taken as inputs. */
module LlmClient {
  import opened Results
  import opened Exceptions
  import Text
  import GitHubClient

  const ErrorPrefix := "Together AI LLM error: "
  const ResponseMarker := "\nResponse: "
  const NoComments := "No comments"

  /** `str(e)` of the `IndexError` raised by `choices[0]` on an empty list. */
  const NoChoiceText := "list index out of range"
  /** `str(e)` of the `TypeError` raised by `json.loads(None)`. */
  const NoContentText := "the JSON object must be str, bytes or bytearray, not NoneType"

  /** How an f-string renders a field value: `str(value)`. */
  function Show(v: GitHubClient.Value): string {
    match v
    case Str(s) => s
    case Null => "None"
    case Other(shown) => shown
  }

  predicate NewlineFree(s: string) {
    '\n' !in s
  }

  /** One `- ` bullet per comment, in order. */
  function Bullets(comments: seq<GitHubClient.Value>): (lines: seq<string>)
    ensures |lines| == |comments|
    ensures forall i :: 0 <= i < |comments| ==> lines[i] == "- " + Show(comments[i])
  {
    seq(|comments|, i requires 0 <= i < |comments| => "- " + Show(comments[i]))
  }

  /** The `comment_str` of `build_prompt`: the bullets joined by newlines, or
      the placeholder when there are no comments. */
  function CommentsSection(comments: seq<GitHubClient.Value>): (section: string)
    ensures section == NoComments <==> |comments| == 0
    ensures |comments| > 0 ==> section == Text.Join(Bullets(comments), '\n')
  {
    if |comments| == 0 then NoComments
    else
      var lines := Bullets(comments);
      Text.JoinStartsWithFirst(lines, '\n');
      assert Text.Join(lines, '\n')[0] == lines[0][0] == '-';
      Text.Join(lines, '\n')
  }

  /** Without newlines inside comments, the section has exactly one line per
      comment, in order, each the comment behind `- `, and no trailing
      newline. */
  lemma CommentsSectionLines(comments: seq<GitHubClient.Value>)
    requires |comments| > 0
    requires forall i :: 0 <= i < |comments| ==> NewlineFree(Show(comments[i]))
    ensures Text.Split(CommentsSection(comments), '\n') == Bullets(comments)
  {
    var lines := Bullets(comments);
    forall i | 0 <= i < |lines|
      ensures '\n' !in lines[i]
    {
      assert lines[i] == "- " + Show(comments[i]);
    }
    Text.SplitJoin(lines, '\n');
  }

  const TitleLead := "    Title: "
  const BodyLead := "    Body: "
  const CommentsHeading := "    Comments:"
  const Indent := "    "

  /** `build_prompt(title, body, comments)`: the f-string template filled in. */
  function BuildPrompt(title: GitHubClient.Value, body: GitHubClient.Value, comments: seq<GitHubClient.Value>): string {
    var titleLine := TitleLead + Show(title);
    var bodyLine := BodyLead + Show(body);
    "\n" + titleLine + "\n" + bodyLine + "\n" + CommentsHeading + "\n" + Indent + CommentsSection(comments) + "\n" + Indent
  }

  /** The prompt is its lines joined by newlines: an empty first line, the
      title, body and heading lines, the comments section with only its
      first line indented, and a last line of four spaces. */
  lemma PromptIsLines(title: GitHubClient.Value, body: GitHubClient.Value, comments: seq<GitHubClient.Value>)
    ensures BuildPrompt(title, body, comments) == Text.Join(PromptLines(title, body, comments), '\n')
  {
    TemplateIsJoin(TitleLead + Show(title), BodyLead + Show(body), CommentsSection(comments));
  }

  /** The prompt line by line: an empty first line, the title, body and
      heading lines, the comments section with only its first line indented,
      and a last line of four spaces. */
  function PromptLines(title: GitHubClient.Value, body: GitHubClient.Value, comments: seq<GitHubClient.Value>): (lines: seq<string>)
  {
    TemplateLines(TitleLead + Show(title), BodyLead + Show(body), CommentsSection(comments))
  }

  lemma IndentFirst(x: string, parts: seq<string>, sep: char)
    requires |parts| >= 1
    ensures Text.Join([x + parts[0]] + parts[1..], sep) == x + Text.Join(parts, sep)
  {
    if |parts| > 1 {
      Text.JoinCons(x + parts[0], parts[1..], sep);
      Text.JoinCons(parts[0], parts[1..], sep);
      assert parts == [parts[0]] + parts[1..];
    } else {
      assert [x + parts[0]] + parts[1..] == [x + parts[0]];
    }
  }

  lemma HeadIsJoin(t: string, b: string)
    ensures Text.Join(["", t, b, CommentsHeading], '\n') == "\n" + t + "\n" + b + "\n" + CommentsHeading
  {
    Text.JoinCons(b, [CommentsHeading], '\n');
    Text.JoinCons(t, [b, CommentsHeading], '\n');
    Text.JoinCons("", [t, b, CommentsHeading], '\n');
  }

  /** The template's line structure, for any title line `t`, body line `b`
      and comments section `s`. */
  function TemplateLines(t: string, b: string, s: string): seq<string> {
    var section := Text.Split(s, '\n');
    ["", t, b, CommentsHeading, Indent + section[0]] + section[1..] + [Indent]
  }

  lemma {:induction false} TemplateIsJoin(t: string, b: string, s: string)
    ensures Text.Join(TemplateLines(t, b, s), '\n')
         == "\n" + t + "\n" + b + "\n" + CommentsHeading + "\n" + Indent + s + "\n" + Indent
  {
    var section := Text.Split(s, '\n');
    var head := ["", t, b, CommentsHeading];
    var middle := [Indent + section[0]] + section[1..];
    HeadIsJoin(t, b);
    IndentFirst(Indent, section, '\n');
    Text.JoinAppend(middle, [Indent], '\n');
    Text.JoinAppend(head, middle + [Indent], '\n');
    assert TemplateLines(t, b, s) == head + (middle + [Indent]);
  }

  /** When title and body hold no newline, splitting the prompt on newlines
      gives back its lines: the title and body sit on lines 2 and 3
      verbatim. */
  lemma {:induction false} PromptLinesRecovered(title: GitHubClient.Value, body: GitHubClient.Value, comments: seq<GitHubClient.Value>)
    requires NewlineFree(Show(title)) && NewlineFree(Show(body))
    ensures Text.Split(BuildPrompt(title, body, comments), '\n') == PromptLines(title, body, comments)
  {
    var t := TitleLead + Show(title);
    var b := BodyLead + Show(body);
    PromptIsLines(title, body, comments);
    LeadNewlineFree(TitleLead, Show(title));
    LeadNewlineFree(BodyLead, Show(body));
    TemplateLinesNewlineFree(t, b, CommentsSection(comments));
    Text.SplitJoin(TemplateLines(t, b, CommentsSection(comments)), '\n');
  }

  lemma LeadNewlineFree(lead: string, x: string)
    requires lead == TitleLead || lead == BodyLead
    requires NewlineFree(x)
    ensures NewlineFree(lead + x)
  {
    assert forall k :: 0 <= k < |lead| ==> lead[k] != '\n';
    assert forall k :: 0 <= k < |lead + x| ==> (lead + x)[k] != '\n' by {
      forall k | 0 <= k < |lead + x|
        ensures (lead + x)[k] != '\n'
      {
        if k >= |lead| {
          assert (lead + x)[k] == x[k - |lead|];
        }
      }
    }
  }

  lemma {:induction false} TemplateLinesNewlineFree(t: string, b: string, s: string)
    requires NewlineFree(t) && NewlineFree(b)
    ensures forall i :: 0 <= i < |TemplateLines(t, b, s)| ==> '\n' !in TemplateLines(t, b, s)[i]
  {
    var lines := TemplateLines(t, b, s);
    var section := Text.Split(s, '\n');
    assert forall k :: 0 <= k < |CommentsHeading| ==> CommentsHeading[k] != '\n';
    assert forall k :: 0 <= k < |Indent| ==> Indent[k] != '\n';
    forall i | 0 <= i < |lines|
      ensures '\n' !in lines[i]
    {
      if i == 4 {
        assert '\n' !in section[0];
        assert lines[4] == Indent + section[0];
      } else if 4 < i < |lines| - 1 {
        assert lines[i] == section[i - 4];
      }
    }
  }

  lemma StripLead(lead: string, x: string, y: string)
    requires lead + x == lead + y
    ensures x == y
  {
    assert x == (lead + x)[|lead|..];
    assert y == (lead + y)[|lead|..];
  }

  lemma {:induction false} TemplateLinesInjective(t1: string, b1: string, s1: string,
                                                  t2: string, b2: string, s2: string)
    requires TemplateLines(t1, b1, s1) == TemplateLines(t2, b2, s2)
    ensures t1 == t2 && b1 == b2 && s1 == s2
  {
    var l1 := TemplateLines(t1, b1, s1);
    var l2 := TemplateLines(t2, b2, s2);
    var sec1 := Text.Split(s1, '\n');
    var sec2 := Text.Split(s2, '\n');
    assert l1[1] == t1 && l2[1] == t2;
    assert l1[2] == b1 && l2[2] == b2;
    assert |sec1| == |sec2|;
    assert l1[4] == Indent + sec1[0] && l2[4] == Indent + sec2[0];
    StripLead(Indent, sec1[0], sec2[0]);
    assert sec1[1..] == l1[5..|l1| - 1];
    assert sec2[1..] == l2[5..|l2| - 1];
    assert sec1 == [sec1[0]] + sec1[1..];
    assert sec2 == [sec2[0]] + sec2[1..];
    assert sec1 == sec2;
  }

  /** Equal comment sections come from comments that render alike, provided
      no comment holds a newline. */
  lemma {:induction false} SectionDeterminesComments(c1: seq<GitHubClient.Value>, c2: seq<GitHubClient.Value>)
    requires forall i :: 0 <= i < |c1| ==> NewlineFree(Show(c1[i]))
    requires forall i :: 0 <= i < |c2| ==> NewlineFree(Show(c2[i]))
    requires CommentsSection(c1) == CommentsSection(c2)
    ensures |c1| == |c2| && forall i :: 0 <= i < |c1| ==> Show(c1[i]) == Show(c2[i])
  {
    if |c1| > 0 && |c2| > 0 {
      CommentsSectionLines(c1);
      CommentsSectionLines(c2);
      assert Bullets(c1) == Bullets(c2);
      forall i | 0 <= i < |c1|
        ensures Show(c1[i]) == Show(c2[i])
      {
        assert Bullets(c1)[i] == "- " + Show(c1[i]);
        assert Bullets(c2)[i] == "- " + Show(c2[i]);
        StripLead("- ", Show(c1[i]), Show(c2[i]));
      }
    }
  }

  /** Equal prompts come from equal inputs, as rendered, provided no field
      holds a newline: the template loses nothing. */
  lemma {:induction false} PromptDeterminesInputs(t1: GitHubClient.Value, b1: GitHubClient.Value, c1: seq<GitHubClient.Value>,
                                                  t2: GitHubClient.Value, b2: GitHubClient.Value, c2: seq<GitHubClient.Value>)
    requires NewlineFree(Show(t1)) && NewlineFree(Show(b1))
    requires NewlineFree(Show(t2)) && NewlineFree(Show(b2))
    requires forall i :: 0 <= i < |c1| ==> NewlineFree(Show(c1[i]))
    requires forall i :: 0 <= i < |c2| ==> NewlineFree(Show(c2[i]))
    requires BuildPrompt(t1, b1, c1) == BuildPrompt(t2, b2, c2)
    ensures Show(t1) == Show(t2) && Show(b1) == Show(b2)
    ensures |c1| == |c2| && forall i :: 0 <= i < |c1| ==> Show(c1[i]) == Show(c2[i])
  {
    PromptLinesRecovered(t1, b1, c1);
    PromptLinesRecovered(t2, b2, c2);
    TemplateLinesInjective(TitleLead + Show(t1), BodyLead + Show(b1), CommentsSection(c1),
                           TitleLead + Show(t2), BodyLead + Show(b2), CommentsSection(c2));
    StripLead(TitleLead, Show(t1), Show(t2));
    StripLead(BodyLead, Show(b1), Show(b2));
    SectionDeterminesComments(c1, c2);
  }

  /** One alternative of the completion's `choices`; `content` is `None`
      when the model returned no message text. */
  datatype Choice = Choice(content: Option<string>)
  datatype Completion = Completion(choices: seq<Choice>)

  /** The body of the `try` block: the completion call, then `json.loads`
      of the first choice's content. */
  function Attempt<J>(prompt: string,
                      complete: string -> Result<Completion, Exc>,
                      loads: string -> Result<J, Exc>): (r: Result<J, Exc>)
    ensures r.Ok? ==>
      && complete(prompt).Ok?
      && |complete(prompt).value.choices| > 0
      && complete(prompt).value.choices[0].content.Some?
      && r == loads(complete(prompt).value.choices[0].content.value)
  {
    match complete(prompt)
    case Err(e) => Err(e)
    case Ok(completion) =>
      if |completion.choices| == 0 then Err(Raise(NoChoiceText))
      else
        match completion.choices[0].content
        case None => Err(Raise(NoContentText))
        case Some(text) => loads(text)
  }

  /** The `except` block: the message gets the fixed prefix, and the attached
      response's text when the exception carries a truthy `response`. */
  function WrapError(e: Exc): (w: Exc)
    ensures w.response.None?
    ensures ErrorPrefix + e.text <= w.text
    ensures w.text == ErrorPrefix + e.text <==> !(e.response.Some? && e.response.value.truthy)
    ensures e.response.Some? && e.response.value.truthy ==>
      w.text[|ErrorPrefix + e.text|..] == ResponseMarker + e.response.value.text
  {
    var message := ErrorPrefix + e.text;
    if e.response.Some? && e.response.value.truthy
    then Raise(message + ResponseMarker + e.response.value.text)
    else Raise(message)
  }

  /** What `WrapError` appends after the original message. */
  function Appended(e: Exc): string {
    if e.response.Some? && e.response.value.truthy then ResponseMarker + e.response.value.text else ""
  }

  /** When the original message does not itself contain the response marker,
      the wrapped message determines the original message, whether a truthy
      response was attached, and that response's text. */
  lemma WrapErrorReadBack(e1: Exc, e2: Exc)
    requires !Text.Occurs(ResponseMarker, e1.text) && !Text.Occurs(ResponseMarker, e2.text)
    requires WrapError(e1).text == WrapError(e2).text
    ensures e1.text == e2.text
    ensures (e1.response.Some? && e1.response.value.truthy) <==> (e2.response.Some? && e2.response.value.truthy)
    ensures e1.response.Some? && e1.response.value.truthy ==> e1.response.value.text == e2.response.value.text
  {
    var u1 := e1.text + Appended(e1);
    var u2 := e2.text + Appended(e2);
    assert WrapError(e1).text == ErrorPrefix + u1;
    assert WrapError(e2).text == ErrorPrefix + u2;
    StripLead(ErrorPrefix, u1, u2);
    MarkerNotEarlier(e1.text, Appended(e1), e2.text, Appended(e2));
    MarkerNotEarlier(e2.text, Appended(e2), e1.text, Appended(e1));
    assert e1.text == u1[..|e1.text|] && e2.text == u2[..|e2.text|];
    assert Appended(e1) == u1[|e1.text|..] && Appended(e2) == u2[|e2.text|..];
    if e1.response.Some? && e1.response.value.truthy {
      StripLead(ResponseMarker, e1.response.value.text, e2.response.value.text);
    }
  }

  /** Where two messages each followed by nothing or by the marker agree,
      the second cannot be longer when it holds no marker itself: the
      marker has a single newline, at its start. */
  lemma MarkerNotEarlier(t1: string, a1: string, t2: string, a2: string)
    requires t1 + a1 == t2 + a2
    requires a1 == "" || ResponseMarker <= a1
    requires a2 == "" || ResponseMarker <= a2
    requires !Text.Occurs(ResponseMarker, t2)
    ensures |t2| <= |t1|
  {
    var m := ResponseMarker;
    if |t1| < |t2| {
      MarkerAfter(t1, a1);
      if |t1| + |m| <= |t2| {
        OccursInPrefix(m, t2, a2, |t1|);
        assert false;
      } else {
        MarkerAfter(t2, a2);
        MarkerNewlineOnlyAtStart(|t2| - |t1|);
        assert false;
      }
    }
  }

  /** Where a message is followed by the marker, the marker starts right
      after it. */
  lemma MarkerAfter(t: string, a: string)
    requires ResponseMarker <= a
    ensures Text.OccursAt(ResponseMarker, t + a, |t|)
    ensures (t + a)[|t|] == '\n'
  {
    assert (t + a)[|t|..|t| + |ResponseMarker|] == a[..|ResponseMarker|];
  }

  lemma OccursInPrefix(m: string, t: string, a: string, i: int)
    requires Text.OccursAt(m, t + a, i) && i + |m| <= |t|
    ensures Text.Occurs(m, t)
  {
    assert (t + a)[i..i + |m|] == t[i..i + |m|];
    assert Text.OccursAt(m, t, i);
  }

  /** The marker's only newline is its first character. */
  lemma MarkerNewlineOnlyAtStart(k: int)
    requires 0 < k < |ResponseMarker|
    ensures ResponseMarker[k] != '\n'
  {
  }

  /** The condition of `WrapErrorReadBack` is needed: a message that already
      ends in the marker and some text wraps exactly as the shorter message
      with a truthy response carrying that text. */
  lemma WrapErrorAmbiguousWithMarker(a: string, b: string)
    ensures WrapError(Exc(a + ResponseMarker + b, None)).text
         == WrapError(Exc(a, Some(AttachedResponse(true, b)))).text
  {
    assert ErrorPrefix + (a + ResponseMarker + b) == ErrorPrefix + a + ResponseMarker + b;
  }

  /** `analyze_issue_with_llm`: build the prompt, run the attempt, and wrap
      any error it raises. */
  function AnalyzeIssueWithLlm<J>(issue: GitHubClient.FetchedIssue,
                                  complete: string -> Result<Completion, Exc>,
                                  loads: string -> Result<J, Exc>): (r: Result<J, Exc>)
    ensures
      var prompt := BuildPrompt(issue.title, issue.body, issue.comments);
      && (r.Ok? ==> r == Attempt(prompt, complete, loads))
      && (r.Err? ==> Attempt(prompt, complete, loads).Err?
                     && r.error == WrapError(Attempt(prompt, complete, loads).error))
    ensures r.Err? ==> ErrorPrefix <= r.error.text && r.error.response.None?
  {
    var prompt := BuildPrompt(issue.title, issue.body, issue.comments);
    match Attempt(prompt, complete, loads)
    case Ok(value) => Ok(value)
    case Err(e) => Err(WrapError(e))
  }

  /** The decoded content is returned as it is, with no check of its fields;
      a failure of the call, an empty choice list, missing content and a
      decoding error are all reported under the same prefix. */
  lemma AnalysisOutcomes<J>(issue: GitHubClient.FetchedIssue,
                            complete: string -> Result<Completion, Exc>,
                            loads: string -> Result<J, Exc>)
    ensures
      var prompt := BuildPrompt(issue.title, issue.body, issue.comments);
      var r := AnalyzeIssueWithLlm(issue, complete, loads);
      && (complete(prompt).Err? ==> r == Err(WrapError(complete(prompt).error)))
      && (complete(prompt).Ok? && |complete(prompt).value.choices| == 0 ==>
            r == Err(Raise(ErrorPrefix + NoChoiceText)))
      && (complete(prompt).Ok? && |complete(prompt).value.choices| > 0 ==>
            var content := complete(prompt).value.choices[0].content;
            && (content.None? ==> r == Err(Raise(ErrorPrefix + NoContentText)))
            && (content.Some? && loads(content.value).Ok? ==> r == loads(content.value))
            && (content.Some? && loads(content.value).Err? ==> r == Err(WrapError(loads(content.value).error))))
  {
  }
}
