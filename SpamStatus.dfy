/** `PostfixProxyHandler.get_spam_status`: derive the spam score and the DCC
    (bulk-mail detector) score from the header lines of a message. */
module SpamStatus {
  import opened Wrappers
  import opened Bytes
  import opened ByteLines
  import opened SpamHeaders

  /** `DEFAULT_SPAM_SCORE`, used when no status header was seen. */
  const DefaultSpamScore: real := -999999.0
  /** `DEFAULT_DCC_SCORE`, used when no DCC group was captured. */
  const DefaultDccScore: int := 0
  /** The value a `many` group stands for. */
  const ManyScore: int := 999999

  /** The returned dict: it always holds both keys. */
  datatype Status = Status(spam: real, dcc: int)

  /** The dict while the scan is running: each key may still be missing. */
  datatype Partial = Partial(spam: Option<real>, dcc: Option<int>) {
    /** `len(status) == 2` */
    predicate Complete() { spam.Some? && dcc.Some? }
  }

  /** The ValueError that `float()` raises on the captured score text; nothing catches it. */
  datatype ScanError = ScoreValueError(text: string)

  // ---------------------------------------------------------------------
  // Folding the DCC groups of one line into the running score

  /** One group: `many` overwrites, a number sets a missing score or raises a smaller one. */
  function DccStep(cur: Option<int>, grp: Option<Capture>): Option<int>
  {
    match grp
    case None => cur
    case Some(Many) => Some(ManyScore)
    case Some(Num(v)) => if cur.None? || v > cur.value then Some(v) else cur
  }

  /** The groups, in order (written as a fold from the right end so that a loop can extend it). */
  function FoldDcc(cur: Option<int>, groups: seq<Option<Capture>>): Option<int>
  {
    if groups == [] then cur
    else DccStep(FoldDcc(cur, groups[..|groups| - 1]), groups[|groups| - 1])
  }

  predicate HasMany(groups: seq<Option<Capture>>)
  {
    exists i :: 0 <= i < |groups| && groups[i] == Some(Many)
  }

  predicate HasNum(groups: seq<Option<Capture>>)
  {
    exists i :: 0 <= i < |groups| && groups[i].Some? && groups[i].value.Num?
  }

  /** `v` is at least every number among the groups. */
  predicate Bounds(v: int, groups: seq<Option<Capture>>)
  {
    forall i :: 0 <= i < |groups| && groups[i].Some? && groups[i].value.Num? ==> groups[i].value.n <= v
  }

  /** `v` is one of the numbers among the groups. */
  predicate Among(v: int, groups: seq<Option<Capture>>)
  {
    exists i :: 0 <= i < |groups| && groups[i].Some? && groups[i].value.Num? && groups[i].value.n == v
  }

  /** Without `many`, the fold is the maximum of the score so far and every
      captured number; a group that did not match (a negative or malformed
      subfield) does not take part. */
  lemma {:induction false} FoldIsMaximum(cur: Option<int>, groups: seq<Option<Capture>>)
    requires !HasMany(groups)
    ensures FoldDcc(cur, groups).None? <==> cur.None? && !HasNum(groups)
    ensures FoldDcc(cur, groups).Some? ==>
              var v := FoldDcc(cur, groups).value;
              Bounds(v, groups) && (cur.Some? ==> cur.value <= v) &&
              ((cur.Some? && v == cur.value) || Among(v, groups))
  {
    if groups != [] {
      var init := groups[..|groups| - 1];
      var last := groups[|groups| - 1];
      assert !HasMany(init) by {
        forall i | 0 <= i < |init| ensures init[i] != Some(Many) { assert init[i] == groups[i]; }
      }
      FoldIsMaximum(cur, init);
      var before := FoldDcc(cur, init);
      assert HasNum(groups) <==> HasNum(init) || (last.Some? && last.value.Num?) by {
        if HasNum(groups) {
          var i :| 0 <= i < |groups| && groups[i].Some? && groups[i].value.Num?;
          if i < |init| { assert init[i] == groups[i]; }
        }
        if HasNum(init) {
          var i :| 0 <= i < |init| && init[i].Some? && init[i].value.Num?;
          assert groups[i] == init[i];
        }
      }
      if FoldDcc(cur, groups).Some? {
        var v := FoldDcc(cur, groups).value;
        forall i | 0 <= i < |groups| && groups[i].Some? && groups[i].value.Num?
          ensures groups[i].value.n <= v
        {
          if i < |init| { assert init[i] == groups[i]; }
        }
        if before.Some? && Among(before.value, init) && v == before.value {
          var i :| 0 <= i < |init| && init[i].Some? && init[i].value.Num? && init[i].value.n == before.value;
          assert groups[i] == init[i];
        }
        if v != before.GetOr(v) || before.None? {
          assert groups[|groups| - 1].Some? && groups[|groups| - 1].value.Num? && groups[|groups| - 1].value.n == v;
        }
      }
    }
  }

  /** After the last `many`, the score is 999999 raised by any larger number that
      follows; numbers before that `many` and the score so far are discarded. */
  lemma {:induction false} FoldAfterLastMany(cur: Option<int>, before: seq<Option<Capture>>, after: seq<Option<Capture>>)
    requires !HasMany(after)
    ensures FoldDcc(cur, before + [Some(Many)] + after).Some?
    ensures var v := FoldDcc(cur, before + [Some(Many)] + after).value;
            ManyScore <= v && Bounds(v, after) && (v == ManyScore || Among(v, after))
  {
    var prefix := before + [Some(Many)];
    assert FoldDcc(cur, prefix) == Some(ManyScore) by {
      assert prefix[..|prefix| - 1] == before;
    }
    FoldAppend(cur, prefix, after);
    FoldIsMaximum(Some(ManyScore), after);
  }

  lemma {:induction false} FoldAppend(cur: Option<int>, a: seq<Option<Capture>>, b: seq<Option<Capture>>)
    ensures FoldDcc(cur, a + b) == FoldDcc(FoldDcc(cur, a), b)
    decreases |b|
  {
    if b == [] {
      assert a + b == a;
    } else {
      var ab := a + b;
      assert ab[..|ab| - 1] == a + b[..|b| - 1];
      assert ab[|ab| - 1] == b[|b| - 1];
      FoldAppend(cur, a, b[..|b| - 1]);
    }
  }

  /** A `many` group yields 999999 whatever the other groups hold, as long as
      no captured number exceeds it. */
  lemma ManyDominates(cur: Option<int>, groups: seq<Option<Capture>>)
    requires HasMany(groups)
    requires Bounds(ManyScore, groups)
    ensures FoldDcc(cur, groups) == Some(ManyScore)
  {
    var k :| 0 <= k < |groups| && groups[k] == Some(Many);
    var last := LastMany(groups, k);
    var before, after := groups[..last], groups[last + 1..];
    assert groups == before + [Some(Many)] + after;
    assert Bounds(ManyScore, after) by {
      forall i | 0 <= i < |after| && after[i].Some? && after[i].value.Num?
        ensures after[i].value.n <= ManyScore
      { assert after[i] == groups[last + 1 + i]; }
    }
    assert !HasMany(after) by {
      forall i | 0 <= i < |after| ensures after[i] != Some(Many) { assert after[i] == groups[last + 1 + i]; }
    }
    FoldAfterLastMany(cur, before, after);
  }

  /** The position of the last `many`, at or after a known one. */
  lemma {:induction false} LastMany(groups: seq<Option<Capture>>, k: nat) returns (last: nat)
    requires k < |groups| && groups[k] == Some(Many)
    ensures k <= last < |groups| && groups[last] == Some(Many)
    ensures forall i :: last < i < |groups| ==> groups[i] != Some(Many)
    decreases |groups| - k
  {
    if exists i :: k < i < |groups| && groups[i] == Some(Many) {
      var i :| k < i < |groups| && groups[i] == Some(Many);
      last := LastMany(groups, i);
    } else {
      last := k;
    }
  }

  /** Groups that captured nothing leave the score as it was. */
  lemma {:induction false} FoldNothing(cur: Option<int>, groups: seq<Option<Capture>>)
    requires forall i :: 0 <= i < |groups| ==> groups[i].None?
    ensures FoldDcc(cur, groups) == cur
  {
    if groups != [] {
      FoldNothing(cur, groups[..|groups| - 1]);
    }
  }

  // ---------------------------------------------------------------------
  // The scan over the lines

  /** The loop's remaining work from dict state `st`: stop at the first
      `b'\r\n'` line; a status line sets the spam score and skips the
      completeness check; otherwise a DCC match folds its groups and the scan
      stops once both keys are present. */
  function ScanFrom(lines: seq<seq<byte>>, m: Matchers, st: Partial): Result<Partial, ScanError>
    decreases |lines|
  {
    if lines == [] || lines[0] == CRLF then Success(st)
    else
      var text := m.decode(lines[0]);
      match StatusCapture(text)
      case Some(score) =>
        (match m.toFloat(score)
         case None => Failure(ScoreValueError(score))
         case Some(f) => ScanFrom(lines[1..], m, st.(spam := Some(f))))
      case None =>
        var next := match m.dcc(text)
                    case None => st
                    case Some(g) => st.(dcc := FoldDcc(st.dcc, g.Groups()));
        if next.Complete() then Success(next) else ScanFrom(lines[1..], m, next)
  }

  /** The defaults for missing keys. */
  function WithDefaults(p: Partial): Status
  {
    Status(p.spam.GetOr(DefaultSpamScore), p.dcc.GetOr(DefaultDccScore))
  }

  /** The extractor applied to a list of lines. */
  function StatusOfLines(lines: seq<seq<byte>>, m: Matchers): Result<Status, ScanError>
  {
    match ScanFrom(lines, m, Partial(None, None))
    case Success(p) => Success(WithDefaults(p))
    case Failure(e) => Failure(e)
  }

  /** `get_spam_status(data)`. */
  function SpamStatusOf(data: seq<byte>, m: Matchers): Result<Status, ScanError>
  {
    StatusOfLines(Lines(data), m)
  }

  /** The extractor as the source writes it: a dict updated inside a loop over
      `byte_lines(data)`, with `break`, `continue` and an inner loop over the
      DCC groups. */
  method GetSpamStatus(data: seq<byte>, m: Matchers) returns (r: Result<Status, ScanError>)
    ensures r == SpamStatusOf(data, m)
  {
    var lines := ByteLines.ByteLines(data);
    var spam: Option<real> := None;
    var dcc: Option<int> := None;
    var i := 0;
    while i < |lines|
      invariant 0 <= i <= |lines|
      invariant ScanFrom(lines, m, Partial(None, None)) == ScanFrom(lines[i..], m, Partial(spam, dcc))
    {
      var line := lines[i];
      assert lines[i..][0] == line && lines[i..][1..] == lines[i + 1..];
      if line == CRLF {
        break;
      }
      var text := m.decode(line);
      var score := StatusCapture(text);
      if score.Some? {
        var f := m.toFloat(score.value);
        if f.None? {
          return Failure(ScoreValueError(score.value));
        }
        spam := f;
        i := i + 1;
        continue;
      }
      var found := m.dcc(text);
      if found.Some? {
        var groups := found.value.Groups();
        ghost var before := dcc;
        var j := 0;
        while j < |groups|
          invariant 0 <= j <= |groups|
          invariant dcc == FoldDcc(before, groups[..j])
        {
          assert groups[..j + 1][..j] == groups[..j];
          var grp := groups[j];
          if grp.Some? {
            match grp.value
            case Many =>
              dcc := Some(ManyScore);
            case Num(v) =>
              if dcc.Some? && v > dcc.value {
                dcc := Some(v);
              } else if dcc.None? {
                dcc := Some(v);
              }
          }
          j := j + 1;
        }
        assert groups[..j] == groups;
      }
      if spam.Some? && dcc.Some? {
        break;
      }
      i := i + 1;
    }
    r := Success(Status(spam.GetOr(DefaultSpamScore), dcc.GetOr(DefaultDccScore)));
  }

  // ---------------------------------------------------------------------
  // What the scan promises

  /** Nothing after the first `b'\r\n'` line is looked at: two line lists that
      agree up to and including it give the same status. */
  lemma StopsAtHeaderEnd(lines1: seq<seq<byte>>, lines2: seq<seq<byte>>, k: nat, m: Matchers)
    requires k < |lines1| && k < |lines2|
    requires lines1[..k + 1] == lines2[..k + 1]
    requires lines1[k] == CRLF
    ensures StatusOfLines(lines1, m) == StatusOfLines(lines2, m)
  {
    ScanStopsAtHeaderEnd(lines1, lines2, k, m, Partial(None, None));
  }

  lemma {:induction false} ScanStopsAtHeaderEnd(lines1: seq<seq<byte>>, lines2: seq<seq<byte>>, k: nat, m: Matchers, st: Partial)
    requires k < |lines1| && k < |lines2|
    requires lines1[..k + 1] == lines2[..k + 1]
    requires lines1[k] == CRLF
    ensures ScanFrom(lines1, m, st) == ScanFrom(lines2, m, st)
  {
    assert lines1[0] == lines1[..k + 1][0] == lines2[0];
    if k > 0 {
      assert lines1[1..][..k] == lines1[..k + 1][1..] == lines2[1..][..k];
      var text := m.decode(lines1[0]);
      match StatusCapture(text)
      case Some(score) =>
        if m.toFloat(score).Some? {
          ScanStopsAtHeaderEnd(lines1[1..], lines2[1..], k - 1, m, st.(spam := m.toFloat(score)));
        }
      case None =>
        var next := match m.dcc(text)
                    case None => st
                    case Some(g) => st.(dcc := FoldDcc(st.dcc, g.Groups()));
        ScanStopsAtHeaderEnd(lines1[1..], lines2[1..], k - 1, m, next);
    }
  }

  /** With no status line, the spam score is the -999999 default (and the scan cannot fail). */
  lemma NoStatusLineDefaults(lines: seq<seq<byte>>, m: Matchers)
    requires forall i :: 0 <= i < |lines| ==> StatusCapture(m.decode(lines[i])).None?
    ensures StatusOfLines(lines, m).Success?
    ensures StatusOfLines(lines, m).value.spam == DefaultSpamScore
  {
    ScanWithoutStatus(lines, m, Partial(None, None));
  }

  lemma {:induction false} ScanWithoutStatus(lines: seq<seq<byte>>, m: Matchers, st: Partial)
    requires st.spam.None?
    requires forall i :: 0 <= i < |lines| ==> StatusCapture(m.decode(lines[i])).None?
    ensures ScanFrom(lines, m, st).Success? && ScanFrom(lines, m, st).value.spam.None?
    decreases |lines|
  {
    if lines != [] && lines[0] != CRLF {
      var text := m.decode(lines[0]);
      assert StatusCapture(text).None?;
      var next := match m.dcc(text)
                  case None => st
                  case Some(g) => st.(dcc := FoldDcc(st.dcc, g.Groups()));
      ScanWithoutStatus(lines[1..], m, next);
    }
  }

  /** A line whose DCC pattern captured no group. */
  predicate NoDccCapture(text: string, m: Matchers)
  {
    m.dcc(text).None? || forall j :: 0 <= j < 3 ==> m.dcc(text).value.Groups()[j].None?
  }

  /** With no captured DCC group, the DCC score is the default 0. */
  lemma NoDccCaptureDefaults(lines: seq<seq<byte>>, m: Matchers)
    requires forall i :: 0 <= i < |lines| ==> NoDccCapture(m.decode(lines[i]), m)
    ensures StatusOfLines(lines, m).Success? ==> StatusOfLines(lines, m).value.dcc == DefaultDccScore
  {
    ScanWithoutDcc(lines, m, Partial(None, None));
  }

  lemma {:induction false} ScanWithoutDcc(lines: seq<seq<byte>>, m: Matchers, st: Partial)
    requires st.dcc.None?
    requires forall i :: 0 <= i < |lines| ==> NoDccCapture(m.decode(lines[i]), m)
    ensures ScanFrom(lines, m, st).Success? ==> ScanFrom(lines, m, st).value.dcc.None?
    decreases |lines|
  {
    if lines != [] && lines[0] != CRLF {
      var text := m.decode(lines[0]);
      assert NoDccCapture(text, m);
      match StatusCapture(text)
      case Some(score) =>
        if m.toFloat(score).Some? {
          ScanWithoutDcc(lines[1..], m, st.(spam := m.toFloat(score)));
        }
      case None =>
        if m.dcc(text).Some? {
          FoldNothing(st.dcc, m.dcc(text).value.Groups());
        }
        ScanWithoutDcc(lines[1..], m, st);
    }
  }

  /** A buffer without any newline is never scanned, so both defaults apply. */
  lemma NoNewlineDefaults(data: seq<byte>, m: Matchers)
    requires LF !in data
    ensures SpamStatusOf(data, m) == Success(Status(DefaultSpamScore, DefaultDccScore))
  {
    LinesWithoutNewline(data);
  }

  /** Because of the `continue` after a status line, a second status line
      right behind it overwrites the first: the earlier one has no effect. */
  lemma LaterStatusOverwrites(first: seq<byte>, rest: seq<seq<byte>>, m: Matchers, st: Partial)
    requires first != CRLF
    requires StatusCapture(m.decode(first)).Some?
    requires m.toFloat(StatusCapture(m.decode(first)).value).Some?
    requires rest != [] && rest[0] != CRLF && StatusCapture(m.decode(rest[0])).Some?
    ensures ScanFrom([first] + rest, m, st) == ScanFrom(rest, m, st)
  {
    assert ([first] + rest)[1..] == rest;
  }

  /** Lines that are neither the separator nor a status line and capture no
      DCC group are passed over while the dict is incomplete. */
  predicate QuietLine(line: seq<byte>, m: Matchers)
  {
    line != CRLF && StatusCapture(m.decode(line)).None? && NoDccCapture(m.decode(line), m)
  }

  lemma {:induction false} SkipQuietLines(quiet: seq<seq<byte>>, rest: seq<seq<byte>>, m: Matchers, st: Partial)
    requires !st.Complete()
    requires forall i :: 0 <= i < |quiet| ==> QuietLine(quiet[i], m)
    ensures ScanFrom(quiet + rest, m, st) == ScanFrom(rest, m, st)
    decreases |quiet|
  {
    if quiet == [] {
      assert quiet + rest == rest;
    } else {
      var text := m.decode(quiet[0]);
      assert QuietLine(quiet[0], m);
      assert (quiet + rest)[0] == quiet[0];
      assert (quiet + rest)[1..] == quiet[1..] + rest;
      if m.dcc(text).Some? {
        FoldNothing(st.dcc, m.dcc(text).value.Groups());
      }
      SkipQuietLines(quiet[1..], rest, m, st);
    }
  }

  /** The layout of the handler tests: some header lines, the status line,
      more header lines, then the DCC line. The spam score is the parsed status
      text, the DCC score is the fold of that line's groups, and whatever comes
      after the DCC line is never looked at. */
  lemma TypicalHeader(pre: seq<seq<byte>>, statusLine: seq<byte>, mid: seq<seq<byte>>,
                      dccLine: seq<byte>, post: seq<seq<byte>>, m: Matchers)
    requires forall i :: 0 <= i < |pre| ==> QuietLine(pre[i], m)
    requires forall i :: 0 <= i < |mid| ==> QuietLine(mid[i], m)
    requires statusLine != CRLF && StatusCapture(m.decode(statusLine)).Some?
    requires m.toFloat(StatusCapture(m.decode(statusLine)).value).Some?
    requires dccLine != CRLF && StatusCapture(m.decode(dccLine)).None?
    requires m.dcc(m.decode(dccLine)).Some?
    requires FoldDcc(None, m.dcc(m.decode(dccLine)).value.Groups()).Some?
    ensures StatusOfLines(pre + [statusLine] + mid + [dccLine] + post, m) ==
            Success(Status(m.toFloat(StatusCapture(m.decode(statusLine)).value).value,
                           FoldDcc(None, m.dcc(m.decode(dccLine)).value.Groups()).value))
  {
    var f := m.toFloat(StatusCapture(m.decode(statusLine)).value);
    var tail := [dccLine] + post;
    assert pre + [statusLine] + mid + [dccLine] + post == pre + ([statusLine] + (mid + tail));
    SkipQuietLines(pre, [statusLine] + (mid + tail), m, Partial(None, None));
    assert ([statusLine] + (mid + tail))[1..] == mid + tail;
    SkipQuietLines(mid, tail, m, Partial(f, None));
    assert tail[0] == dccLine;
  }

  /** The handler tests' DCC table, group by group. */
  lemma DccTestTable()
    ensures FoldDcc(None, [Some(Num(10)), None, None]) == Some(10)
    ensures FoldDcc(None, [None, Some(Num(5)), Some(Num(3))]) == Some(5)
    ensures FoldDcc(None, [Some(Num(2)), Some(Num(1)), None]) == Some(2)
    ensures FoldDcc(None, [Some(Num(10)), Some(Many), Some(Num(999998))]) == Some(999999)
    ensures FoldDcc(None, [None, Some(Num(999998)), Some(Many)]) == Some(999999)
    ensures FoldDcc(None, [Some(Num(10)), Some(Num(20)), Some(Num(30))]) == Some(30)
    ensures FoldDcc(None, [Some(Num(30)), Some(Num(20)), Some(Num(10))]) == Some(30)
  {
    forall a, b, c | true ensures FoldDcc(None, [a, b, c]) == DccStep(DccStep(DccStep(None, a), b), c) {
      FoldThree(None, a, b, c);
    }
  }

  /** A `re_dcc` match has exactly three groups. */
  lemma FoldThree(cur: Option<int>, a: Option<Capture>, b: Option<Capture>, c: Option<Capture>)
    ensures FoldDcc(cur, [a, b, c]) == DccStep(DccStep(DccStep(cur, a), b), c)
  {
    assert [a, b, c][..2] == [a, b];
    assert [a, b][..1] == [a];
    assert [a][..0] == [];
    assert FoldDcc(cur, [a]) == DccStep(cur, a);
    assert FoldDcc(cur, [a, b]) == DccStep(DccStep(cur, a), b);
  }
}
