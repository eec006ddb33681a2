/** `PostfixProxyHandler.handle_DATA`, `check_greylist` (argument selection)
    and `relay_mail` (payload and reply): the per-message greylisting decision. */
module ProxyHandler {
  import opened Wrappers
  import opened Bytes
  import opened Text
  import opened SpamHeaders
  import opened SpamStatus
  import opened Forwarding

  /** The handler's constructor arguments: relay target, spam threshold, DCC threshold. */
  datatype Config = Config(relay: string, spam: real, dcc: int)

  /** The relay value that means "drop the message" (used by the tests). */
  const NoRelay: string := "None"

  /** The parts of aiosmtpd's envelope the handler reads. */
  datatype Envelope = Envelope(mailFrom: string, rcptTos: seq<string>, content: seq<byte>)

  /** The four values `greylist_status` is called with. */
  datatype PolicyRequest = PolicyRequest(recipient: string, sender: string, clientAddress: string, clientName: string)

  /** What the policy query gives back if it is issued: an exception of any
      kind, or the stripped first response line. */
  datatype QueryOutcome = QueryRaised | Answered(response: string)

  /** What `smtplib.SMTP(relay).sendmail(...)` does if it is called. */
  datatype Delivery = Delivered | DeliveryRaised

  /** The reply handed back to the SMTP session, the policy request that was
      issued (if any), and the bytes the relay was asked to send (if any). */
  datatype Handled = Handled(reply: string, query: Option<PolicyRequest>, relayed: Option<seq<byte>>)

  /** Exceptions that escape `handle_DATA`. */
  datatype Raised =
    | StatusError(cause: ScanError)  // float() on the status capture
    | DoGreyUnbound                  // UnboundLocalError: the gate was closed
    | PrependIndexError              // `do_grey[1]` on a PREPEND line without text

  const ReplyRelayFailed: string := "500 Could not process your message"
  const DeferPrefix: string := "450 4.7.1 "

  /** The condition on line 77 under which the greylist server is asked. */
  predicate Gate(st: Status, cfg: Config)
  {
    st.spam >= cfg.spam && st.dcc >= cfg.dcc
  }

  /** `check_greylist`'s lookups: the first recipient, the sender, and the
      forwarded ADDR and NAME. None when one of them raises (no recipient, no
      `fwd_info` attribute, or a missing key); `handle_DATA` catches that. */
  function GreylistQuery(env: Envelope, fwd: Option<map<string, string>>): (r: Option<PolicyRequest>)
    ensures r.Some? <==> |env.rcptTos| > 0 && fwd.Some? && "ADDR" in fwd.value && "NAME" in fwd.value
    ensures r.Some? ==> r.value.recipient == env.rcptTos[0] && r.value.sender == env.mailFrom &&
                        r.value.clientAddress == fwd.value["ADDR"] && r.value.clientName == fwd.value["NAME"]
  {
    if |env.rcptTos| > 0 && fwd.Some? && "ADDR" in fwd.value && "NAME" in fwd.value then
      Some(PolicyRequest(env.rcptTos[0], env.mailFrom, fwd.value["ADDR"], fwd.value["NAME"]))
    else None
  }

  // ---------------------------------------------------------------------
  // Reference reading of a policy response, in terms of decision actions

  datatype Action = Pass | Defer(reason: Option<string>) | Prepend(header: string)

  /** The action a response line asks for: its first space-delimited token
      decides, and the rest of the line is the reason or the header. */
  function Interpret(response: string): Result<Action, Raised>
  {
    var parts := SplitFirst(response, ' ');
    var rest := if |parts| == 2 then Some(parts[1]) else None;
    if EndsWith(parts[0], "DEFER_IF_PERMIT") then Success(Defer(rest))
    else if EndsWith(parts[0], "PREPEND") then
      (match rest
       case Some(h) => Success(Prepend(h))
       case None => Failure(PrependIndexError))
    else Success(Pass)
  }

  /** Line 92 as written: the conditional expression binds looser than `%`,
      so a deferral without text replies the bare word `greylisted`. */
  function DeferReply(reason: Option<string>): string
  {
    match reason
    case Some(text) => DeferPrefix + text
    case None => "greylisted"
  }

  /** `relay_mail`'s message bytes: the header line, CR LF and the original
      content when there is a (non-empty) header, the content alone otherwise. */
  function RelayPayload(header: string, content: seq<byte>): seq<byte>
  {
    if header != "" then Utf8Encode(header) + CRLF + content else content
  }

  /** `relay_mail` and the reply it leads to: the `None` relay drops the
      message, any exception from the delivery becomes a 500 reply. */
  function Relay(cfg: Config, env: Envelope, header: string, delivery: Delivery, query: Option<PolicyRequest>): Handled
  {
    if cfg.relay == NoRelay then Handled(ReplyOk, query, None)
    else
      Handled(if delivery == Delivered then ReplyOk else ReplyRelayFailed, query,
              Some(RelayPayload(header, env.content)))
  }

  /** The decision for a message whose headers gave `st`, stated through
      actions: a closed gate raises, a failed query passes, and a response is
      interpreted as PASS, DEFER or PREPEND. */
  function Decide(st: Status, cfg: Config, env: Envelope, fwd: Option<map<string, string>>,
                  answer: QueryOutcome, delivery: Delivery): Result<Handled, Raised>
  {
    if !Gate(st, cfg) then Failure(DoGreyUnbound)
    else
      var query := GreylistQuery(env, fwd);
      var action := if query.Some? && answer.Answered? then Interpret(answer.response) else Success(Pass);
      match action
      case Failure(e) => Failure(e)
      case Success(Defer(reason)) => Success(Handled(DeferReply(reason), query, None))
      case Success(Prepend(header)) => Success(Relay(cfg, env, header, delivery, query))
      case Success(Pass) => Success(Relay(cfg, env, "", delivery, query))
  }

  /** The whole of `handle_DATA` on a message. */
  function Process(cfg: Config, env: Envelope, fwd: Option<map<string, string>>, m: Matchers,
                   answer: QueryOutcome, delivery: Delivery): Result<Handled, Raised>
  {
    match SpamStatusOf(env.content, m)
    case Failure(e) => Failure(StatusError(e))
    case Success(st) => Decide(st, cfg, env, fwd, answer, delivery)
  }

  /** `handle_DATA` as the source writes it, rebinding `do_grey`, `add_header`
      and `result` step by step (`None` for `do_grey` is "never assigned"). */
  method HandleData(cfg: Config, env: Envelope, fwd: Option<map<string, string>>, m: Matchers,
                    answer: QueryOutcome, delivery: Delivery) returns (r: Result<Handled, Raised>)
    ensures r == Process(cfg, env, fwd, m, answer, delivery)
  {
    var status := GetSpamStatus(env.content, m);
    if status.Failure? {
      return Failure(StatusError(status.error));
    }
    var doGrey: Option<seq<string>> := None;
    var query: Option<PolicyRequest> := None;
    if status.value.spam >= cfg.spam && status.value.dcc >= cfg.dcc {
      query := GreylistQuery(env, fwd);
      if query.Some? && answer.Answered? {
        doGrey := Some(SplitFirst(answer.response, ' '));
      } else {
        doGrey := Some([]);
      }
    }
    if doGrey.None? {
      return Failure(DoGreyUnbound);
    }
    var grey := doGrey.value;
    var addHeader: Option<string> := None;
    var result: Option<string> := None;
    if |grey| > 0 {
      if EndsWith(grey[0], "DEFER_IF_PERMIT") {
        result := Some(if |grey| > 1 then DeferPrefix + grey[1] else "greylisted");
      } else if EndsWith(grey[0], "PREPEND") {
        if |grey| <= 1 {
          return Failure(PrependIndexError);
        }
        addHeader := Some(grey[1]);
      }
    }
    if result.None? || result.value == "" {
      var header := addHeader.GetOr("");
      if cfg.relay == NoRelay {
        r := Success(Handled(ReplyOk, query, None));
      } else {
        var data := if header != "" then Utf8Encode(header) + CRLF + env.content else env.content;
        r := Success(Handled(if delivery == Delivered then ReplyOk else ReplyRelayFailed, query, Some(data)));
      }
    } else {
      r := Success(Handled(result.value, query, None));
    }
  }

  // ---------------------------------------------------------------------
  // What the decision promises

  /** The greylist server is asked only when both thresholds are met, and then
      with the first recipient, the sender and the forwarded ADDR and NAME. */
  lemma QueryOnlyWhenGated(st: Status, cfg: Config, env: Envelope, fwd: Option<map<string, string>>,
                           answer: QueryOutcome, delivery: Delivery)
    requires Decide(st, cfg, env, fwd, answer, delivery).Success?
    ensures Gate(st, cfg)
    ensures Decide(st, cfg, env, fwd, answer, delivery).value.query == GreylistQuery(env, fwd)
  {
  }

  /** A failed query (an exception from the server, or a missing recipient,
      ADDR or NAME) never blocks the message: it is relayed unmodified. */
  lemma QueryFailureRelaysUnmodified(st: Status, cfg: Config, env: Envelope, fwd: Option<map<string, string>>,
                                     answer: QueryOutcome, delivery: Delivery)
    requires Gate(st, cfg)
    requires GreylistQuery(env, fwd).None? || answer == QueryRaised
    requires cfg.relay != NoRelay
    ensures Decide(st, cfg, env, fwd, answer, delivery) ==
            Success(Handled(if delivery == Delivered then ReplyOk else ReplyRelayFailed,
                            GreylistQuery(env, fwd), Some(env.content)))
  {
  }

  /** A response whose first token ends in DEFER_IF_PERMIT defers with the
      rest of the line as the reason; nothing is relayed. */
  lemma DeferWithReason(st: Status, cfg: Config, env: Envelope, fwd: Option<map<string, string>>,
                        token: string, reason: string, delivery: Delivery)
    requires Gate(st, cfg) && GreylistQuery(env, fwd).Some?
    requires ' ' !in token && EndsWith(token, "DEFER_IF_PERMIT")
    ensures Decide(st, cfg, env, fwd, Answered(token + " " + reason), delivery) ==
            Success(Handled(DeferPrefix + reason, GreylistQuery(env, fwd), None))
  {
    HeadOfSplitFirst(token, reason, ' ');
  }

  /** Without a reason the deferral reply is the bare word `greylisted`. */
  lemma DeferWithoutReason(st: Status, cfg: Config, env: Envelope, fwd: Option<map<string, string>>,
                           token: string, delivery: Delivery)
    requires Gate(st, cfg) && GreylistQuery(env, fwd).Some?
    requires ' ' !in token && EndsWith(token, "DEFER_IF_PERMIT")
    ensures Decide(st, cfg, env, fwd, Answered(token), delivery) ==
            Success(Handled("greylisted", GreylistQuery(env, fwd), None))
  {
  }

  /** A response whose first token ends in PREPEND relays the rest of the
      line, CR LF and then the original bytes. */
  lemma PrependRelaysHeader(st: Status, cfg: Config, env: Envelope, fwd: Option<map<string, string>>,
                            token: string, header: string, delivery: Delivery)
    requires Gate(st, cfg) && GreylistQuery(env, fwd).Some? && cfg.relay != NoRelay
    requires ' ' !in token && EndsWith(token, "PREPEND") && header != ""
    ensures var d := Decide(st, cfg, env, fwd, Answered(token + " " + header), delivery);
            d.Success? && d.value.relayed == Some(Utf8Encode(header) + CRLF + env.content) &&
            d.value.reply == (if delivery == Delivered then ReplyOk else ReplyRelayFailed)
  {
    HeadOfSplitFirst(token, header, ' ');
    assert !EndsWith(token, "DEFER_IF_PERMIT") by {
      assert token[|token| - 1] == 'D';
    }
  }

  /** A PREPEND response with no text after the token raises IndexError. */
  lemma PrependWithoutHeaderRaises(st: Status, cfg: Config, env: Envelope, fwd: Option<map<string, string>>,
                                   token: string, delivery: Delivery)
    requires Gate(st, cfg) && GreylistQuery(env, fwd).Some?
    requires ' ' !in token && EndsWith(token, "PREPEND")
    ensures Decide(st, cfg, env, fwd, Answered(token), delivery) == Failure(PrependIndexError)
  {
    assert !EndsWith(token, "DEFER_IF_PERMIT") by {
      assert token[|token| - 1] == 'D';
    }
  }

  /** Any other first token (DUNNO, for one) relays the message unmodified. */
  lemma OtherResponsesPass(st: Status, cfg: Config, env: Envelope, fwd: Option<map<string, string>>,
                           response: string, delivery: Delivery)
    requires Gate(st, cfg) && cfg.relay != NoRelay
    requires var head := SplitFirst(response, ' ')[0];
             !EndsWith(head, "DEFER_IF_PERMIT") && !EndsWith(head, "PREPEND")
    ensures Decide(st, cfg, env, fwd, Answered(response), delivery) ==
            Success(Handled(if delivery == Delivered then ReplyOk else ReplyRelayFailed,
                            GreylistQuery(env, fwd), Some(env.content)))
  {
  }

  /** The relayed bytes: the encoded header, CR LF, then the original content
      byte for byte; an ASCII header is copied as it is. */
  lemma PayloadLayout(header: string, content: seq<byte>)
    requires header != ""
    ensures var p := RelayPayload(header, content);
            var n := |Utf8Encode(header)|;
            |p| == n + 2 + |content| && p[..n] == Utf8Encode(header) &&
            p[n..n + 2] == CRLF && p[n + 2..] == content
  {
  }

  /** With the `None` relay nothing is sent, and whatever is not deferred gets `250 Ok`. */
  lemma NoRelayDrops(st: Status, cfg: Config, env: Envelope, fwd: Option<map<string, string>>,
                     answer: QueryOutcome, delivery: Delivery)
    requires cfg.relay == NoRelay
    requires Decide(st, cfg, env, fwd, answer, delivery).Success?
    ensures Decide(st, cfg, env, fwd, answer, delivery).value.relayed.None?
  {
  }

  /** The end-to-end case of a spam score of 1.5 and a DCC score of 3 against
      thresholds 1.0 and 2 with a DUNNO answer: the message is relayed
      unmodified and the reply is `250 Ok`. */
  lemma DunnoScenario(env: Envelope, fwd: Option<map<string, string>>, relay: string)
    requires GreylistQuery(env, fwd).Some? && relay != NoRelay
    ensures Decide(Status(1.5, 3), Config(relay, 1.0, 2), env, fwd, Answered("action=DUNNO"), Delivered) ==
            Success(Handled(ReplyOk, GreylistQuery(env, fwd), Some(env.content)))
  {
    assert ' ' !in "action=DUNNO";
    assert !EndsWith("action=DUNNO", "DEFER_IF_PERMIT");
    assert !EndsWith("action=DUNNO", "PREPEND") by {
      assert "action=DUNNO"[|"action=DUNNO"| - 1] == 'O';
    }
  }

  /** As written, a message below either threshold never reaches a reply:
      `do_grey` was never assigned and `handle_DATA` raises. */
  lemma GateClosedRaises(st: Status, cfg: Config, env: Envelope, fwd: Option<map<string, string>>,
                         answer: QueryOutcome, delivery: Delivery)
    requires !Gate(st, cfg)
    ensures Decide(st, cfg, env, fwd, answer, delivery) == Failure(DoGreyUnbound)
  {
  }

  /** The same for a whole message: one without any newline is never scanned,
      so its default scores keep the gate closed against any spam threshold
      above -999999 and the handler raises. */
  lemma UnscannedMessageRaises(cfg: Config, env: Envelope, fwd: Option<map<string, string>>, m: Matchers,
                               answer: QueryOutcome, delivery: Delivery)
    requires LF !in env.content && cfg.spam > DefaultSpamScore
    ensures Process(cfg, env, fwd, m, answer, delivery) == Failure(DoGreyUnbound)
  {
    NoNewlineDefaults(env.content, m);
  }

  // ---------------------------------------------------------------------
  // The evidently intended decision

  /** Line 92 as intended: the conditional chooses the text, not the reply,
      so every deferral carries the 450 code. */
  function DeferReplyIntended(reason: Option<string>): (reply: string)
    ensures StartsWith(reply, DeferPrefix)
  {
    DeferPrefix + reason.GetOr("greylisted")
  }

  /** `handle_DATA` with `do_grey = []` before the gate and the deferral text
      parenthesised: a message below the thresholds is relayed without a query. */
  function DecideIntended(st: Status, cfg: Config, env: Envelope, fwd: Option<map<string, string>>,
                          answer: QueryOutcome, delivery: Delivery): Result<Handled, Raised>
  {
    if !Gate(st, cfg) then Success(Relay(cfg, env, "", delivery, None))
    else
      var query := GreylistQuery(env, fwd);
      var action := if query.Some? && answer.Answered? then Interpret(answer.response) else Success(Pass);
      match action
      case Failure(e) => Failure(e)
      case Success(Defer(reason)) => Success(Handled(DeferReplyIntended(reason), query, None))
      case Success(Prepend(header)) => Success(Relay(cfg, env, header, delivery, query))
      case Success(Pass) => Success(Relay(cfg, env, "", delivery, query))
  }

  /** Below a threshold no query is made and the message is relayed unmodified
      (a spam score of 0.5 against 1.0, say). */
  lemma IntendedGateClosedRelays(st: Status, cfg: Config, env: Envelope, fwd: Option<map<string, string>>,
                                 answer: QueryOutcome, delivery: Delivery)
    requires !Gate(st, cfg) && cfg.relay != NoRelay
    ensures DecideIntended(st, cfg, env, fwd, answer, delivery) ==
            Success(Handled(if delivery == Delivered then ReplyOk else ReplyRelayFailed, None, Some(env.content)))
  {
  }

  /** Every reply of the intended decision starts with an SMTP code: 250, 450 or 500. */
  lemma IntendedRepliesAreCoded(st: Status, cfg: Config, env: Envelope, fwd: Option<map<string, string>>,
                                answer: QueryOutcome, delivery: Delivery)
    requires DecideIntended(st, cfg, env, fwd, answer, delivery).Success?
    ensures var reply := DecideIntended(st, cfg, env, fwd, answer, delivery).value.reply;
            reply == ReplyOk || reply == ReplyRelayFailed || StartsWith(reply, DeferPrefix)
  {
  }

  /** The intended decision agrees with the written one whenever the gate is open,
      except for the text of a reasonless deferral. */
  lemma IntendedAgreesWhenGated(st: Status, cfg: Config, env: Envelope, fwd: Option<map<string, string>>,
                                answer: QueryOutcome, delivery: Delivery)
    requires Gate(st, cfg)
    requires Decide(st, cfg, env, fwd, answer, delivery).Success?
    requires Decide(st, cfg, env, fwd, answer, delivery).value.reply != "greylisted"
    ensures DecideIntended(st, cfg, env, fwd, answer, delivery) == Decide(st, cfg, env, fwd, answer, delivery)
  {
  }

  /** The reasonless deferral as written is not an SMTP reply at all. */
  lemma DeferReplyWithoutCode()
    ensures !StartsWith(DeferReply(None), DeferPrefix)
    ensures DeferReplyIntended(None) == "450 4.7.1 greylisted"
  {
    assert DeferReply(None)[0] == 'g';
  }
}
