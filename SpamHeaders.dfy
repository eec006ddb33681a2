/** The two header recognisers both versions of the proxy apply to every
    decoded header line: the exact `re_status` pattern and an abstract
    stand-in for the `re_dcc` pattern. */
module SpamHeaders {
  import opened Wrappers
  import opened Bytes
  import opened Text

  /** What one `(\d+|many)` group of `re_dcc` captures. `int()` of a `\d+`
      capture always succeeds, so a number is a natural number. */
  datatype Capture = Many | Num(n: nat)

  /** The three groups (Body, Fuz1, Fuz2) of a `re_dcc` match; a group that
      did not take part in the match is None. */
  datatype DccMatch = DccMatch(body: Option<Capture>, fuz1: Option<Capture>, fuz2: Option<Capture>) {
    /** `match.groups()`, in order. */
    function Groups(): (g: seq<Option<Capture>>)
      ensures |g| == 3
    {
      [body, fuz1, fuz2]
    }
  }

  /** The parts of the scan that this model does not re-implement:
      `bytes.decode('utf8', errors='replace')`, `re_dcc.match` reduced to its
      groups, and `float()` (None when it raises ValueError). */
  datatype Matchers = Matchers(
    decode: seq<byte> -> string,
    dcc: string -> Option<DccMatch>,
    toFloat: string -> Option<real>)

  /** The literal head of `re_status`: `^X-Spam-Status: No, score=`. */
  const StatusPrefix: string := "X-Spam-Status: No, score="

  /** Length of the longest run of non-whitespace characters at the start of `s`. */
  function NonSpaceRun(s: string): (k: nat)
    ensures k <= |s|
    ensures forall i :: 0 <= i < k ==> !IsPySpace(s[i])
    ensures k < |s| ==> IsPySpace(s[k])
  {
    if s == [] || IsPySpace(s[0]) then 0 else 1 + NonSpaceRun(s[1..])
  }

  /** What `.*$` accepts: no newline, except possibly as the very last character. */
  predicate LineTail(t: string)
  {
    forall i :: 0 <= i < |t| - 1 ==> t[i] != '\n'
  }

  /** `re_status.match(line).group(1)`, or None when the line does not match
      `^X-Spam-Status: No, score=(\S+) .*$`. The greedy `\S+` takes the whole
      non-space run, which must be followed by a literal space. */
  function StatusCapture(line: string): (r: Option<string>)
    ensures r.Some? ==> StartsWith(line, StatusPrefix)
    ensures r.Some? ==> |r.value| > 0 && forall i :: 0 <= i < |r.value| ==> !IsPySpace(r.value[i])
    ensures r.Some? ==> |line| > |StatusPrefix| + |r.value|
    ensures r.Some? ==> var rest := line[|StatusPrefix| + |r.value|..];
                        |rest| > 0 && rest[0] == ' ' && LineTail(rest[1..]) &&
                        line == StatusPrefix + r.value + rest
  {
    if !StartsWith(line, StatusPrefix) then None
    else
      var rest := line[|StatusPrefix|..];
      var k := NonSpaceRun(rest);
      if 0 < k < |rest| && rest[k] == ' ' && LineTail(rest[k + 1..]) then
        assert line == StatusPrefix + rest;
        assert rest == rest[..k] + rest[k..];
        Some(rest[..k])
      else None
  }

  /** Every line of the documented shape matches, and the capture is the score text. */
  lemma StatusCaptureComplete(score: string, tail: string)
    requires |score| > 0 && forall i :: 0 <= i < |score| ==> !IsPySpace(score[i])
    requires LineTail(tail)
    ensures StatusCapture(StatusPrefix + score + " " + tail) == Some(score)
  {
    var line := StatusPrefix + score + " " + tail;
    assert line[..|StatusPrefix|] == StatusPrefix;
    var rest := line[|StatusPrefix|..];
    assert rest == score + " " + tail;
    assert rest == score + (" " + tail);
    NonSpaceRunOf(score, " " + tail);
    assert NonSpaceRun(rest) == |score|;
    assert rest[|score|] == ' ';
    assert rest[|score| + 1..] == tail;
    assert rest[..|score|] == score;
  }

  lemma {:induction false} NonSpaceRunOf(word: string, rest: string)
    requires forall i :: 0 <= i < |word| ==> !IsPySpace(word[i])
    requires |rest| > 0 && IsPySpace(rest[0])
    ensures NonSpaceRun(word + rest) == |word|
  {
    if word != [] {
      assert (word + rest)[1..] == word[1..] + rest;
      NonSpaceRunOf(word[1..], rest);
    } else {
      assert word + rest == rest;
    }
  }

  /** A score followed by a tab instead of a space, or by nothing, never matches. */
  lemma StatusNeedsLiteralSpace(score: string, tail: string)
    requires forall i :: 0 <= i < |score| ==> !IsPySpace(score[i])
    requires tail == [] || (IsPySpace(tail[0]) && tail[0] != ' ')
    ensures StatusCapture(StatusPrefix + score + tail) == None
  {
    var line := StatusPrefix + score + tail;
    assert line[..|StatusPrefix|] == StatusPrefix;
    var rest := line[|StatusPrefix|..];
    assert rest == score + tail;
    if tail == [] {
      NonSpaceRunAll(score);
    } else {
      NonSpaceRunOf(score, tail);
    }
  }

  /** An empty score (`score= required=...`) does not match: `\S+` needs a character. */
  lemma EmptyScoreNoMatch(tail: string)
    ensures StatusCapture(StatusPrefix + " " + tail) == None
  {
    var line := StatusPrefix + " " + tail;
    assert line[..|StatusPrefix|] == StatusPrefix;
    assert line[|StatusPrefix|..][0] == ' ';
  }

  lemma {:induction false} NonSpaceRunAll(word: string)
    requires forall i :: 0 <= i < |word| ==> !IsPySpace(word[i])
    ensures NonSpaceRun(word) == |word|
  {
    if word != [] {
      NonSpaceRunAll(word[1..]);
    }
  }
}
