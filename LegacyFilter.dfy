/** The older single-file proxy's `get_spam_status`, which keys the spam
    score as `score`, applies no defaults and uses only the first captured DCC
    group of a line. */
module LegacyFilter {
  import opened Wrappers
  import opened Bytes
  import opened ByteLines
  import opened SpamHeaders
  import opened SpamStatus

  // ---------------------------------------------------------------------
  // The older get_spam_status

  /** The first group that captured anything: the inner loop `break`s after it. */
  function FirstCapture(groups: seq<Option<Capture>>): (r: Option<Capture>)
    ensures r.None? <==> forall i :: 0 <= i < |groups| ==> groups[i].None?
  {
    if groups == [] then None
    else if groups[0].Some? then groups[0]
    else
      assert forall i :: 1 <= i < |groups| ==> groups[i] == groups[1..][i - 1];
      FirstCapture(groups[1..])
  }

  /** `many` sets 999999; a number only raises a score that is already there. */
  function LegacyDccStep(cur: Option<int>, grp: Option<Capture>): Option<int>
  {
    match grp
    case None => cur
    case Some(Many) => Some(ManyScore)
    case Some(Num(v)) => if cur.Some? && v > cur.value then Some(v) else cur
  }

  /** The legacy loop's remaining work from dict state `st`. */
  function LegacyScanFrom(lines: seq<seq<byte>>, m: Matchers, st: Partial): Result<Partial, ScanError>
    decreases |lines|
  {
    if lines == [] || lines[0] == CRLF then Success(st)
    else
      var text := m.decode(lines[0]);
      match StatusCapture(text)
      case Some(score) =>
        (match m.toFloat(score)
         case None => Failure(ScoreValueError(score))
         case Some(f) => LegacyScanFrom(lines[1..], m, st.(spam := Some(f))))
      case None =>
        var next := match m.dcc(text)
                    case None => st
                    case Some(g) => st.(dcc := LegacyDccStep(st.dcc, FirstCapture(g.Groups())));
        if next.Complete() then Success(next) else LegacyScanFrom(lines[1..], m, next)
  }

  /** `get_spam_status(data)`: the `score` key is the `spam` field, and a
      missing key stays missing. */
  function LegacyStatusOf(data: seq<byte>, m: Matchers): Result<Partial, ScanError>
  {
    LegacyScanFrom(Lines(data), m, Partial(None, None))
  }

  /** The legacy extractor as written: a dict updated in a loop over the
      lines, with an inner loop that stops at the first captured group. */
  method LegacyGetSpamStatus(data: seq<byte>, m: Matchers) returns (r: Result<Partial, ScanError>)
    ensures r == LegacyStatusOf(data, m)
  {
    var lines := ByteLines.ByteLines(data);
    var score: Option<real> := None;
    var dcc: Option<int> := None;
    var i := 0;
    while i < |lines|
      invariant 0 <= i <= |lines|
      invariant LegacyScanFrom(lines, m, Partial(None, None)) == LegacyScanFrom(lines[i..], m, Partial(score, dcc))
    {
      var line := lines[i];
      assert lines[i..][0] == line && lines[i..][1..] == lines[i + 1..];
      if line == CRLF {
        break;
      }
      var text := m.decode(line);
      var captured := StatusCapture(text);
      if captured.Some? {
        var f := m.toFloat(captured.value);
        if f.None? {
          return Failure(ScoreValueError(captured.value));
        }
        score := f;
        i := i + 1;
        continue;
      }
      var found := m.dcc(text);
      if found.Some? {
        var groups := found.value.Groups();
        ghost var before := dcc;
        var j := 0;
        while j < |groups|
          invariant 0 <= j <= |groups|
          invariant forall k :: 0 <= k < j ==> groups[k].None?
          invariant dcc == before
        {
          var grp := groups[j];
          if grp.Some? {
            match grp.value {
              case Many =>
                dcc := Some(ManyScore);
              case Num(v) =>
                if dcc.Some? && v > dcc.value {
                  dcc := Some(v);
                }
            }
            FirstCaptureAt(groups, j);
            break;
          }
          j := j + 1;
        }
        if j == |groups| {
          assert FirstCapture(groups).None?;
        }
      }
      if score.Some? && dcc.Some? {
        break;
      }
      i := i + 1;
    }
    r := Success(Partial(score, dcc));
  }

  /** A group preceded only by empty ones is the first capture. */
  lemma {:induction false} FirstCaptureAt(groups: seq<Option<Capture>>, j: nat)
    requires j < |groups| && groups[j].Some?
    requires forall k :: 0 <= k < j ==> groups[k].None?
    ensures FirstCapture(groups) == groups[j]
  {
    if j > 0 {
      assert groups[0].None?;
      FirstCaptureAt(groups[1..], j - 1);
    }
  }

  // ---------------------------------------------------------------------
  // What the legacy scan promises

  /** Only the first captured group of a DCC line counts: whatever follows
      it, `many` or a larger number, is ignored. */
  lemma {:induction false} OnlyFirstCaptureCounts(empty: nat, c: Capture, rest: seq<Option<Capture>>)
    ensures FirstCapture(seq(empty, _ => None) + [Some(c)] + rest) == Some(c)
  {
    var groups := seq(empty, _ => None) + [Some(c)] + rest;
    assert groups[empty] == Some(c);
    FirstCaptureAt(groups, empty);
  }

  /** A number never creates the DCC score: lines without `many` in their
      first capture leave a missing score missing. */
  lemma {:induction false} NumbersNeverCreateDcc(lines: seq<seq<byte>>, m: Matchers, st: Partial)
    requires st.dcc.None?
    requires forall i :: 0 <= i < |lines| ==> FirstCaptureOf(m.decode(lines[i]), m) != Some(Many)
    ensures LegacyScanFrom(lines, m, st).Success? ==> LegacyScanFrom(lines, m, st).value.dcc.None?
    decreases |lines|
  {
    if lines != [] && lines[0] != CRLF {
      var text := m.decode(lines[0]);
      assert FirstCaptureOf(text, m) != Some(Many);
      match StatusCapture(text)
      case Some(score) =>
        if m.toFloat(score).Some? {
          NumbersNeverCreateDcc(lines[1..], m, st.(spam := m.toFloat(score)));
        }
      case None =>
        NumbersNeverCreateDcc(lines[1..], m, st);
    }
  }

  /** The first captured group of a line, if its DCC pattern matched. */
  function FirstCaptureOf(text: string, m: Matchers): Option<Capture>
  {
    match m.dcc(text)
    case None => None
    case Some(g) => FirstCapture(g.Groups())
  }

  /** Once present, the legacy DCC score is at least 999999: only `many`
      creates it, and numbers only raise it. */
  lemma {:induction false} DccAtLeastMany(lines: seq<seq<byte>>, m: Matchers, st: Partial)
    requires st.dcc.Some? ==> st.dcc.value >= ManyScore
    ensures var r := LegacyScanFrom(lines, m, st);
            r.Success? && r.value.dcc.Some? ==> r.value.dcc.value >= ManyScore
    decreases |lines|
  {
    if lines != [] && lines[0] != CRLF {
      var text := m.decode(lines[0]);
      match StatusCapture(text)
      case Some(score) =>
        if m.toFloat(score).Some? {
          DccAtLeastMany(lines[1..], m, st.(spam := m.toFloat(score)));
        }
      case None =>
        var next := match m.dcc(text)
                    case None => st
                    case Some(g) => st.(dcc := LegacyDccStep(st.dcc, FirstCapture(g.Groups())));
        if !next.Complete() {
          DccAtLeastMany(lines[1..], m, next);
        }
    }
  }

  /** Without a status line the `score` key stays absent (no default). */
  lemma {:induction false} NoStatusNoScore(lines: seq<seq<byte>>, m: Matchers, st: Partial)
    requires st.spam.None?
    requires forall i :: 0 <= i < |lines| ==> StatusCapture(m.decode(lines[i])).None?
    ensures LegacyScanFrom(lines, m, st).Success? && LegacyScanFrom(lines, m, st).value.spam.None?
    decreases |lines|
  {
    if lines != [] && lines[0] != CRLF {
      var text := m.decode(lines[0]);
      assert StatusCapture(text).None?;
      var next := match m.dcc(text)
                  case None => st
                  case Some(g) => st.(dcc := LegacyDccStep(st.dcc, FirstCapture(g.Groups())));
      NoStatusNoScore(lines[1..], m, next);
    }
  }

  /** Nothing after the first `b'\r\n'` line is looked at. */
  lemma {:induction false} LegacyStopsAtHeaderEnd(lines1: seq<seq<byte>>, lines2: seq<seq<byte>>, k: nat, m: Matchers, st: Partial)
    requires k < |lines1| && k < |lines2|
    requires lines1[..k + 1] == lines2[..k + 1]
    requires lines1[k] == CRLF
    ensures LegacyScanFrom(lines1, m, st) == LegacyScanFrom(lines2, m, st)
  {
    assert lines1[0] == lines1[..k + 1][0] == lines2[0];
    if k > 0 {
      assert lines1[1..][..k] == lines1[..k + 1][1..] == lines2[1..][..k];
      var text := m.decode(lines1[0]);
      match StatusCapture(text)
      case Some(score) =>
        if m.toFloat(score).Some? {
          LegacyStopsAtHeaderEnd(lines1[1..], lines2[1..], k - 1, m, st.(spam := m.toFloat(score)));
        }
      case None =>
        var next := match m.dcc(text)
                    case None => st
                    case Some(g) => st.(dcc := LegacyDccStep(st.dcc, FirstCapture(g.Groups())));
        LegacyStopsAtHeaderEnd(lines1[1..], lines2[1..], k - 1, m, next);
    }
  }

  /** A buffer without any newline gives an empty dict. */
  lemma LegacyNoNewlineEmpty(data: seq<byte>, m: Matchers)
    requires LF !in data
    ensures LegacyStatusOf(data, m) == Success(Partial(None, None))
  {
    LinesWithoutNewline(data);
  }

  /** Where the two extractors part: the DCC line of the groups (10, 20, 30)
      gives 30 in the package and no key in the legacy module; (10, 20, many)
      gives 999999 in the package and, after an earlier `many`, leaves 999999
      in the legacy module too because 10 does not exceed it. */
  lemma LegacyVersusPackage()
    ensures FoldDcc(None, [Some(Num(10)), Some(Num(20)), Some(Num(30))]) == Some(30)
    ensures LegacyDccStep(None, FirstCapture([Some(Num(10)), Some(Num(20)), Some(Num(30))])) == None
    ensures LegacyDccStep(Some(ManyScore), FirstCapture([Some(Num(10)), Some(Num(20)), Some(Many)])) == Some(ManyScore)
    ensures LegacyDccStep(Some(5), FirstCapture([None, Some(Num(7)), Some(Many)])) == Some(7)
  {
    FoldThree(None, Some(Num(10)), Some(Num(20)), Some(Num(30)));
    FirstCaptureAt([Some(Num(10)), Some(Num(20)), Some(Num(30))], 0);
    FirstCaptureAt([Some(Num(10)), Some(Num(20)), Some(Many)], 0);
    FirstCaptureAt([None, Some(Num(7)), Some(Many)], 1);
  }
}
