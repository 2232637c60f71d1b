/**
 * `extract_json` of the extractor script: the model's reply loses every Markdown fence
 * line (three backticks up to and including the next newline), and the text from the
 * first `{` to the last `}` is what gets handed to the JSON parser. A reply without a
 * `{` or without a `}` is rejected.
 */
module VisionJson {
  import opened Wrappers
  import opened PyStr

  const Fence := "```"

  datatype JsonError = NoJsonFound

  /**
   * `re.sub(r"```.*?\n", "", text, flags=re.S)`: at each position, three backticks and
   * the shortest stretch up to a newline are deleted; scanning resumes after the newline.
   */
  function StripFences(s: string): (r: string)
    ensures |r| <= |s|
    ensures '\n' !in s ==> r == s
    decreases |s|
  {
    if s == [] then []
    else if StartsWith(s, Fence) && '\n' in s[3..] then
      var e := 3 + Find(s[3..], '\n') + 1;
      var r := StripFences(s[e..]);
      assert s == s[..e] + s[e..];
      r
    else
      var r := StripFences(s[1..]);
      assert s == [s[0]] + s[1..];
      assert '\n' !in s ==> '\n' !in s[1..];
      [s[0]] + r
  }

  /** Text without any run of three backticks is not changed by the fence removal. */
  lemma {:induction false} StripFencesNoFence(s: string)
    requires !Contains(s, Fence)
    ensures StripFences(s) == s
    decreases |s|
  {
    if s != [] {
      StripFencesNoFence(s[1..]);
    }
  }

  /**
   * `extract_json(text)` up to the parser: the slice `text[start:end + 1]` of the
   * fence-free text, where `start` is the first `{` and `end` the last `}`.
   */
  function ExtractJson(text: string): (r: Result<string, JsonError>)
    ensures r.Failure? <==> '{' !in StripFences(text) || '}' !in StripFences(text)
  {
    var t := StripFences(text);
    var start, end := Find(t, '{'), RFind(t, '}');
    if start == -1 || end == -1 then Failure(NoJsonFound)
    else Success(if start <= end then t[start..end + 1] else [])
  }

  /** An occurrence of `c` with none before it is what `find` returns. */
  lemma FindIs(t: string, c: char, i: nat)
    requires i < |t| && t[i] == c && c !in t[..i]
    ensures Find(t, c) == i
  {
    var k := Find(t, c);
    assert forall m | 0 <= m < i :: t[m] == t[..i][m];
    assert forall m | 0 <= m < k :: t[m] == t[..k][m];
  }

  /** An occurrence of `c` with none after it is what `rfind` returns. */
  lemma RFindIs(t: string, c: char, j: nat)
    requires j < |t| && t[j] == c && c !in t[j + 1..]
    ensures RFind(t, c) == j
  {
    var k := RFind(t, c);
    assert forall m | j < m < |t| :: t[m] == t[j + 1..][m - j - 1];
    assert forall m | k < m < |t| :: t[m] == t[k + 1..][m - k - 1];
  }

  /**
   * When the first `{` of the fence-free text comes before its last `}`, the slice runs
   * from that `{` to that `}`, both included.
   */
  lemma FirstBraceToLastBrace(text: string, i: nat, j: nat)
    requires var t := StripFences(text);
      i <= j < |t| && t[i] == '{' && '{' !in t[..i] && t[j] == '}' && '}' !in t[j + 1..]
    ensures ExtractJson(text) == Success(StripFences(text)[i..j + 1])
  {
    var t := StripFences(text);
    FindIs(t, '{', i);
    RFindIs(t, '}', j);
    var start, end := Find(t, '{'), RFind(t, '}');
    assert start == i && end == j && start <= end;
    assert ExtractJson(text) == Success(t[start..end + 1]);
  }

  /**
   * When every `}` comes before the first `{`, Python's slice is empty, which the
   * parser then rejects.
   */
  lemma BracesReversed(text: string, i: nat, j: nat)
    requires var t := StripFences(text);
      j < i < |t| && t[i] == '{' && '{' !in t[..i] && t[j] == '}' && '}' !in t[j + 1..]
    ensures ExtractJson(text) == Success([])
  {
    FindIs(StripFences(text), '{', i);
    RFindIs(StripFences(text), '}', j);
  }

  /** An opening fence line such as "```json" followed by a newline is dropped whole. */
  lemma OpeningFenceDropped(rest: string)
    ensures StripFences("```json\n" + rest) == StripFences(rest)
  {
    var s := "```json\n" + rest;
    assert StartsWith(s, Fence);
    assert s[3..] == "json\n" + rest;
    assert s[3..][..4] == "json";
    FindIs(s[3..], '\n', 4);
    assert s[8..] == rest;
  }

  /** An opening fence line and a closing fence with no newline after it. */
  lemma FencedReply(body: string)
    requires !Contains(body, Fence)
    ensures StripFences("```json\n" + body + "\n```") == body + "\n```"
  {
    assert "```json\n" + body + "\n```" == "```json\n" + (body + "\n```");
    OpeningFenceDropped(body + "\n```");
    // After the opening line, nothing is removed: the body has no fence, and the closing
    // backticks have no newline after them.
    StripFencesTail(body);
  }

  /** A body without fences, a newline, then three backticks and nothing more. */
  lemma StripFencesTail(body: string)
    requires !Contains(body, Fence)
    ensures StripFences(body + "\n```") == body + "\n```"
  {
    ClosingFenceKept();
    KeptBeforeNewline(body, "\n```");
  }

  /** The closing newline and fence on their own stay. */
  lemma ClosingFenceKept()
    ensures StripFences("\n```") == "\n```"
  {
    var s := "\n```";
    assert !StartsWith(s, Fence);
    assert s[1..] == Fence;
    assert '\n' !in Fence;
  }

  /** A fence-free body in front of a kept text that starts a new line is kept too. */
  lemma {:induction false} KeptBeforeNewline(body: string, tail: string)
    requires !Contains(body, Fence)
    requires tail != [] && tail[0] == '\n' && StripFences(tail) == tail
    ensures StripFences(body + tail) == body + tail
    decreases |body|
  {
    if body == [] {
      assert body + tail == tail;
    } else {
      NoFenceAtHead(body, tail);
      KeptBeforeNewline(body[1..], tail);
      KeptAfterHead(body, tail);
    }
  }

  /** The step of the induction: the head is kept, and so is the rest. */
  lemma KeptAfterHead(body: string, tail: string)
    requires body != [] && !StartsWith(body + tail, Fence)
    requires StripFences(body[1..] + tail) == body[1..] + tail
    ensures StripFences(body + tail) == body + tail
  {
    var s := body + tail;
    assert s[1..] == body[1..] + tail;
    KeptFromSecond(s);
  }

  /** Where no fence starts and the rest is kept, everything is kept. */
  lemma KeptFromSecond(s: string)
    requires s != [] && !StartsWith(s, Fence) && StripFences(s[1..]) == s[1..]
    ensures StripFences(s) == s
  {
    assert s == [s[0]] + s[1..];
  }

  /** No fence starts at the head of a fence-free body followed by a new line. */
  lemma NoFenceAtHead(body: string, tail: string)
    requires body != [] && !Contains(body, Fence)
    requires tail != [] && tail[0] == '\n'
    ensures !StartsWith(body + tail, Fence)
    ensures !Contains(body[1..], Fence)
  {
    var s := body + tail;
    assert !StartsWith(body, Fence);
    if |body| >= 3 {
      assert s[..3] == body[..3];
    } else if |s| >= 3 {
      assert s[..3][|body|] == '\n';
    }
  }
}
