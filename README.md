# Spam-aware greylisting proxy, modelled in Dafny

The system is an SMTP proxy that sits behind a content filter. For each
message it reads two scores from the headers the filter added:
- the spam score from `X-Spam-Status: No, score=…`;
- the DCC bulk-mail score from `X-Spam-DCC: … Body=… Fuz1=… Fuz2=…`.

When both scores reach the configured thresholds, the proxy asks a
Postfix-style greylisting policy server about the
(recipient, sender, client address, client name) tuple. The upstream MTA
supplies that tuple with the XFORWARD command. The policy server's answer
makes the proxy do one of three things:
- defer the message with a 450 reply;
- relay it with a header line put in front;
- relay it unchanged.

The model covers both copies of this logic: the package module
`greylistfilter/smtpproxy.py` and the older single-file
`greylist_proxy_filter.py`.

Modules, one file each:

- `Wrappers`: `Option` and `Result`.
- `Bytes`: a `byte` type, CR/LF, concatenation of chunks, and UTF-8 encoding (`str.encode()` for headers).
- `Text`: Python's `str.isspace`, `startswith`/`endswith`, `split(sep)`, `split(sep, 1)` and `join`.
- `ByteLines`: `byte_lines`. It is a specification function, plus a method with the source's counter loop proved equal to it.
- `SpamHeaders`: the exact `re_status` recogniser. `re_dcc`, UTF-8 decoding and `float()` are abstract (the `Matchers` record).
- `SpamStatus`: `get_spam_status`. It is a specification function over the chunk list, plus the loop-with-`break`/`continue` method proved equal to it, and the DCC fold with its maximum and `many` properties.
- `Forwarding`: the `fwd_info` store. It is a `Session` class whose `XForward` and `Reset` methods update the metadata in place, specified by the pure step `XForwardStep`. `ResetAsWritten` is RSET as the hook is actually bound (the `handle_RSET` finding below).
- `ProxyHandler`: `handle_DATA`, `check_greylist`'s argument selection and `relay_mail`'s payload and reply. It is a decision function of the status, the thresholds, the query outcome and the relay outcome, plus the method that rebinds `do_grey`, `add_header` and `result` as the source does. It also holds the corrected decision for the two `handle_DATA` findings below.
- `PyNumbers`: Python's `int()` on a `str` in base 10, with its round-trip with `str()`.
- `DccOption`: the legacy `check_dcc_type`.
- `LegacyFilter`: the legacy `get_spam_status`. It keys the score as `score`, applies no defaults, uses the first captured DCC group only, and a number there only raises an existing score.

The legacy file's `byte_lines` (`greylist_proxy_filter.py:21-39`),
`smtp_XFORWARD` (`greylist_proxy_filter.py:56-72`) and `handle_RSET`
(`greylist_proxy_filter.py:102-105`) are the same code as the package's,
apart from logging. `ByteLines` and `Forwarding` therefore model both copies,
and every lemma about them holds for the legacy module too: the concatenation
of the chunks and the all-or-nothing merge among them.

Calls that leave the process are inputs:
- the policy query is a `QueryOutcome`: it raised, or it answered with a line;
- the `sendmail` call is a `Delivery`: it returned, or it raised.

Where the system's design document and the code disagree, the model follows the code:
- The last status line before the scan stops wins: the `continue` after a status match skips the completeness check. The design document has the first match win.
- A status score that `float()` rejects raises `ValueError` out of `handle_DATA`. The design document treats it as absent.
- Any exception from the relay gives `500 Could not process your message`. The design document passes a relay rejection on.
- The design document has `many` dominate the DCC score. In the code a number above 999999 after `many` (`Body=many Fuz1=1000000`) still raises the score, and `many` lowers a larger number seen before it to 999999 (`SpamStatus.FoldAfterLastMany`).
- A PREPEND answer without text raises `IndexError` rather than degrading to a pass.
- The integration test expects the deferral code 451 (`greylistfilter/tests/test_integration.py:71`), while the code replies 450, and the model says 450.

## Model

| member | source | states |
|---|---|---|
| Bytes.Utf8Encode | greylistfilter/smtpproxy.py:178 | The header's encoding has at least one byte per character, exactly one per character iff the header is ASCII, and an ASCII header's bytes are its character codes. |
| ByteLines.ByteLines | greylistfilter/smtpproxy.py:19-37 | The counter loop (skip after each newline, remainder only after a seen newline) yields exactly the chunk list `Lines(data)`. |
| ByteLines.LinesWithoutNewline | greylistfilter/smtpproxy.py:36-37 | A buffer without a newline yields no chunk at all. |
| ByteLines.LinesConcat | greylistfilter/smtpproxy.py:27-37 | When the buffer contains a newline, the chunks concatenate back to the buffer. |
| ByteLines.LinesEndInNewline | greylistfilter/smtpproxy.py:29-34 | Every chunk except the last ends in a newline byte. |
| ByteLines.LinesTrailingEmptyChunk | greylistfilter/smtpproxy.py:29-37 | A buffer ending in a newline that is not itself right after a newline yields an empty last chunk. |
| ByteLines.DoubleNewlineNotSplit | greylistfilter/smtpproxy.py:30-34 | The byte after a newline is never examined: `\n\nx` gives `[\n]`, `[\n x]`, and `\n\n` gives two one-newline chunks. |
| Text.Split | greylistfilter/smtpproxy.py:46 | `str.split(sep)` yields at least one part, no part contains the separator, and a single part means the separator is absent. |
| Text.JoinSplit | greylistfilter/smtpproxy.py:46 | Joining the parts with the separator gives back the string. |
| Text.SplitJoin | greylistfilter/smtpproxy.py:46 | Splitting a join of separator-free parts gives back the parts. |
| Text.SplitFirst | greylistfilter/smtpproxy.py:82 | `split(' ', 1)` yields one or two parts; the first has no separator; one part is the whole string; two parts rebuild it around the first separator. |
| Text.HeadOfSplitFirst | greylistfilter/smtpproxy.py:82 | A separator-free token, the separator and any rest split into exactly the token and the rest. |
| Text.PrefixSplitUnique | greylistfilter/smtpproxy.py:82 | The token before the first separator is unique: two such decompositions of one string agree. |
| SpamHeaders.NonSpaceRun | greylistfilter/smtpproxy.py:15 | The greedy `\S+` run: every character in it is not white space, and the character that ends it is. |
| SpamHeaders.StatusCapture | greylistfilter/smtpproxy.py:15 | A match means the line is the literal prefix, a non-empty white-space-free capture, a literal space and a tail without an inner newline. |
| SpamHeaders.StatusCaptureComplete | greylistfilter/smtpproxy.py:15 | Conversely, every line of that shape matches and captures exactly the score text. |
| SpamHeaders.StatusNeedsLiteralSpace | greylistfilter/smtpproxy.py:15 | A score followed by nothing, or by white space other than a space, does not match. |
| SpamHeaders.EmptyScoreNoMatch | greylistfilter/tests/test_handler.py:17-34 | `score=` followed directly by a space does not match, so the default spam score stands. |
| SpamStatus.FoldIsMaximum | greylistfilter/smtpproxy.py:142-152 | Without `many`, the DCC fold is the maximum of the score so far and every captured number. It is missing iff both are. Uncaptured groups take no part. |
| SpamStatus.FoldAfterLastMany | greylistfilter/smtpproxy.py:142-152 | After the last `many`, the score is 999999, raised only by larger numbers that follow it. |
| SpamStatus.ManyDominates | greylistfilter/smtpproxy.py:144-145 | A `many` group yields 999999 whatever the other groups hold, provided no captured number exceeds it. |
| SpamStatus.FoldNothing | greylistfilter/smtpproxy.py:142-143 | Groups that captured nothing leave the score unchanged. |
| SpamStatus.DccTestTable | greylistfilter/tests/test_handler.py:66-107 | The test table's group vectors give the test's expected DCC scores (10, 5, 2, 999999, 999999, 30, 30). |
| SpamStatus.GetSpamStatus | greylistfilter/smtpproxy.py:123-168 | The loop with `break`, `continue` and the inner group loop returns exactly the specified status, or the `float()` error. |
| SpamStatus.StopsAtHeaderEnd | greylistfilter/smtpproxy.py:126-129 | Two chunk lists that agree up to and including the first `\r\n` chunk give the same result. |
| SpamStatus.NoStatusLineDefaults | greylistfilter/smtpproxy.py:161-163 | With no status-line match the scan succeeds and the spam score is -999999. |
| SpamStatus.NoDccCaptureDefaults | greylistfilter/smtpproxy.py:165-166 | With no captured DCC group the DCC score is 0. |
| SpamStatus.NoNewlineDefaults | greylistfilter/smtpproxy.py:161-166 | A buffer without a newline gives exactly the two defaults. |
| SpamStatus.LaterStatusOverwrites | greylistfilter/smtpproxy.py:133-137 | A status line directly followed by another status line has no effect on the result. |
| SpamStatus.SkipQuietLines | greylistfilter/smtpproxy.py:126-159 | Lines that are neither the separator nor a status line and capture nothing are passed over. |
| SpamStatus.TypicalHeader | greylistfilter/tests/test_handler.py:5-15 | For the tests' header layout, the result is the parsed status score and the fold of the DCC line's groups. Later lines are not read. |
| Forwarding.Session.constructor | greylistfilter/smtpproxy.py:52-57 | A new session has no `fwd_info` attribute. |
| Forwarding.Session.XForward | greylistfilter/smtpproxy.py:45-59 | The metadata and the reply after one XFORWARD are those of `XForwardStep`, and only XF_ARGS keys are stored. |
| Forwarding.Session.Reset | greylistfilter/smtpproxy.py:106-109 | As intended, RSET replaces the metadata with an empty dict and replies `250 Ok`. |
| Forwarding.Session.ResetAsWritten | greylistfilter/smtpproxy.py:106-109 | As the hook is bound, RSET replies `250 Ok` and leaves the session's metadata as it was. |
| Forwarding.RsetKeepsMetadata | greylistfilter/smtpproxy.py:106-109 | As written, NAME, ADDR and PROTO sent before RSET are all still stored after it. |
| Forwarding.RsetClearsMetadata | greylistfilter/smtpproxy.py:106-109 | As intended, after RSET a HELO command leaves HELO as the only stored key. |
| Forwarding.XForwardKeepsKeys | greylistfilter/smtpproxy.py:47-50 | A store holding only XF_ARGS keys keeps that property. |
| Forwarding.RejectedLeavesUnchanged | greylistfilter/smtpproxy.py:46-50 | A command not answered `250 Ok` leaves the metadata unchanged. It is either malformed (raises) or names a key outside XF_ARGS (replied `501 Syntax error`). |
| Forwarding.AcceptedMerges | greylistfilter/smtpproxy.py:52-57 | An accepted command creates or merges: the new keys take the command's values, other earlier keys survive, and nothing else is added. |
| Forwarding.ParseFormatted | greylistfilter/smtpproxy.py:46 | `K1=V1 K2=V2 …` with plain keys and values parses to exactly the pairs' dict, a later key winning. |
| Forwarding.ParseNameAddrProto | greylistfilter/smtpproxy.py:46 | `NAME=… ADDR=… PROTO=…` parses to the three-key dict. |
| Forwarding.FirstXForward | greylistfilter/smtpproxy.py:45-59 | On a fresh session, `NAME=… ADDR=… PROTO=…` stores exactly those three keys and replies `250 Ok`. |
| Forwarding.HeloXForward | greylistfilter/smtpproxy.py:52-54 | `HELO=…` on well-keyed metadata adds or overwrites HELO and replies `250 Ok`. |
| Forwarding.ForeignKeyXForward | greylistfilter/smtpproxy.py:47-50 | A one-pair command whose key is outside XF_ARGS is answered `501 Syntax error`, whatever the metadata, and leaves it unchanged. |
| Forwarding.ServerTestSequence | greylistfilter/tests/test_server.py:5-29 | NAME/ADDR/PROTO gives three keys and `250 Ok`. HELO then gives all four XF_ARGS keys. A command with a foreign key is answered `501 Syntax error` and the four keys stay. |
| ProxyHandler.GreylistQuery | greylistfilter/smtpproxy.py:111-121 | The query is made iff there is a recipient and the metadata holds ADDR and NAME. It is made with the first recipient, the sender, ADDR and NAME. |
| ProxyHandler.HandleData | greylistfilter/smtpproxy.py:72-104 | The step-by-step handler returns exactly the specified outcome of the whole message: the reply, the query made and the bytes relayed, or the exception that escapes. |
| ProxyHandler.QueryOnlyWhenGated | greylistfilter/smtpproxy.py:77-81 | A handled message had both thresholds met, and the query made is `GreylistQuery` of the envelope and metadata. |
| ProxyHandler.QueryFailureRelaysUnmodified | greylistfilter/smtpproxy.py:80-85 | A failed query (any exception, or a missing recipient, ADDR or NAME) relays the original bytes and replies 250, or 500 if the relay fails. |
| ProxyHandler.DeferWithReason | greylistfilter/smtpproxy.py:90-92 | A first token ending in DEFER_IF_PERMIT with text after it replies `450 4.7.1 <text>` and relays nothing. |
| ProxyHandler.DeferWithoutReason | greylistfilter/smtpproxy.py:92 | Such a token with no text replies the bare word `greylisted` and relays nothing. |
| ProxyHandler.PrependRelaysHeader | greylistfilter/smtpproxy.py:93-99 | A first token ending in PREPEND relays the encoded header, CR LF and the original bytes, and replies 250 (500 if the relay fails). |
| ProxyHandler.PrependWithoutHeaderRaises | greylistfilter/smtpproxy.py:93-94 | A PREPEND token with no text raises IndexError. |
| ProxyHandler.OtherResponsesPass | greylistfilter/smtpproxy.py:90-102 | Any other first token relays the original bytes unmodified. |
| ProxyHandler.PayloadLayout | greylistfilter/smtpproxy.py:177-180 | The relayed bytes are exactly the encoded header, then CR LF, then the content byte for byte. |
| ProxyHandler.NoRelayDrops | greylistfilter/smtpproxy.py:171-173 | With the `None` relay nothing is sent. |
| ProxyHandler.DunnoScenario | greylistfilter/tests/test_integration.py:88-95 | Spam 1.5 and DCC 3 against thresholds 1.0 and 2 with a DUNNO answer: the original bytes are relayed and the reply is `250 Ok`. |
| ProxyHandler.GateClosedRaises | greylistfilter/smtpproxy.py:77-90 | As written, a message below either threshold raises UnboundLocalError. No reply is given and nothing is relayed. |
| ProxyHandler.UnscannedMessageRaises | greylistfilter/smtpproxy.py:72-90 | As written, a message without a newline raises under any spam threshold above -999999. |
| ProxyHandler.DeferReplyWithoutCode | greylistfilter/smtpproxy.py:92 | As written, the reasonless deferral reply does not start with `450 4.7.1 `. The intended one is `450 4.7.1 greylisted`. |
| ProxyHandler.DeferReplyIntended | greylistfilter/smtpproxy.py:92 | The corrected deferral reply always carries the 450 code. |
| ProxyHandler.IntendedGateClosedRelays | greylistfilter/smtpproxy.py:77-90 | Corrected: below a threshold, no query is made and the original bytes are relayed. |
| ProxyHandler.IntendedRepliesAreCoded | greylistfilter/smtpproxy.py:90-104 | Corrected: every reply is `250 Ok`, the 500 reply, or starts with `450 4.7.1 `. |
| ProxyHandler.IntendedAgreesWhenGated | greylistfilter/smtpproxy.py:72-104 | With the gate open, the corrected decision equals the written one wherever the written reply is not the bare `greylisted`. |
| PyNumbers.PyIntRepr | greylist_proxy_filter.py:194 | `int(str(v)) == v` for every integer. |
| PyNumbers.PyIntIgnoresSpace | greylist_proxy_filter.py:194 | White space that `int()` skips (the six C spaces and non-ASCII `isspace` characters) around the literal does not change what `int()` returns. |
| PyNumbers.PyIntRejectsSeparator | greylist_proxy_filter.py:194 | A leading U+001C to U+001F makes `int()` fail, although `str.isspace` accepts these characters. |
| DccOption.CheckDccType | greylist_proxy_filter.py:189-201 | An accepted value is at least 2. `many` gives 999999. A rejected small value carries a value below 2. |
| DccOption.CheckDccTypeKeepsInteger | greylist_proxy_filter.py:193-201 | Every integer of at least 2, written out, is returned unchanged. |
| DccOption.CheckDccTypeRejectsSmall | greylist_proxy_filter.py:198-199 | Every integer below 2 is rejected as too small, with its value. |
| DccOption.CheckDccTypeAllowsSignAndSpace | greylist_proxy_filter.py:194 | A plus sign and surrounding white space that `int()` skips are accepted. |
| DccOption.CheckDccTypeRejectsBlank | greylist_proxy_filter.py:193-196 | An empty value, or one made only of white space that `int()` skips, is rejected as not an integer. |
| DccOption.CheckDccTypeRejectsSeparator | greylist_proxy_filter.py:193-196 | Any integer led by U+001C to U+001F, such as `\x1c5`, is rejected as not an integer. |
| DccOption.CheckDccTypeUnderscores | greylist_proxy_filter.py:194 | `1_000` is accepted as 1000. |
| DccOption.CheckDccTypeRejectsFraction | greylist_proxy_filter.py:193-196 | `2.5` is rejected as not an integer. |
| DccOption.CheckDccTypeRejectsDoubleUnderscore | greylist_proxy_filter.py:193-196 | `1__0` is rejected as not an integer. |
| DccOption.CheckDccTypeRejectsCapitalised | greylist_proxy_filter.py:190-196 | `Many` is neither the keyword nor an integer and is rejected. |
| LegacyFilter.FirstCapture | greylist_proxy_filter.py:140-152 | There is no first capture iff no group captured anything. |
| LegacyFilter.FirstCaptureAt | greylist_proxy_filter.py:140-152 | A group preceded only by empty groups is the one the loop uses. |
| LegacyFilter.LegacyGetSpamStatus | greylist_proxy_filter.py:121-158 | The legacy loop, with its inner loop that stops at the first captured group, returns exactly the specified dict, or the `float()` error. |
| LegacyFilter.OnlyFirstCaptureCounts | greylist_proxy_filter.py:140-152 | The first captured group decides, whatever follows it (`many` included). |
| LegacyFilter.NumbersNeverCreateDcc | greylist_proxy_filter.py:146-148 | When no line's first capture is `many`, the `dcc` key stays absent. |
| LegacyFilter.DccAtLeastMany | greylist_proxy_filter.py:142-148 | When the `dcc` key is present it is at least 999999. |
| LegacyFilter.NoStatusNoScore | greylist_proxy_filter.py:131-135 | Without a status line the `score` key stays absent and the scan succeeds. |
| LegacyFilter.LegacyStopsAtHeaderEnd | greylist_proxy_filter.py:124-127 | Nothing after the first `\r\n` chunk affects the legacy result. |
| LegacyFilter.LegacyNoNewlineEmpty | greylist_proxy_filter.py:121-158 | A buffer without a newline gives the empty dict: no defaults. |
| LegacyFilter.LegacyVersusPackage | greylist_proxy_filter.py:140-152 | The groups (10, 20, 30) give 30 in the package but no key in the legacy module. A later `many` is ignored there. |

## Left out

- The policy client `greylistfilter/postgrey_client.py` is not part of this model. The network exchange is a `QueryOutcome` input (exception or the response line).
- The `smtplib.SMTP(relay).sendmail` call is a `Delivery` input (returned or raised). Only the payload bytes and the reply mapping are modelled.
- `re_dcc`, the `utf8`/`errors='replace'` decoding and `float()` are abstract functions in `Matchers`. Their own behaviour (the lazy `.+?`, backtracking, replacement characters, float syntax) is not modelled.
- Floating point: spam scores and thresholds are `real`. NaN and infinities, which `float()` can produce, are not represented.
- The `ValueError` branch of the DCC fold (the score set to 1) is unreachable: both `re_dcc` versions capture only `\d+` or `many`, so `int()` cannot fail. Captures are `Many` or `Num(nat)`.
- The `TypeError` guard of `byte_lines`: the Dafny type already guarantees a byte sequence.
- The legacy `handle_DATA` and `check_greylist` (event-loop plumbing, and the greylist result is discarded), `main`, `configure_logging`, argparse wiring, logging, and the aiosmtpd `Controller`, `factory`, `@syntax` and `push` machinery.
- What aiosmtpd does with an exception that escapes `smtp_XFORWARD` or `handle_DATA`: the model stops at the exception (`MalformedArgument`, `Raised`).
- An XFORWARD with no argument at all (aiosmtpd passes `None`): `args` is a string here.
- PyNumbers.PyInt: recognises ASCII digits only. Python's `int()` also accepts other Unicode decimal digits, which the model rejects.
- SpamStatus.StopsAtHeaderEnd: stated over the chunk list, not over raw bytes. Which bytes form the `\r\n` chunk depends on the newline skip, which `ByteLines` captures separately.
- SpamStatus.ScanFrom and LegacyFilter.LegacyScanFrom describe decoding per chunk through the abstract `decode`, so no property depends on how invalid UTF-8 is replaced.

## Findings

| source | as written | input that shows it | evidently intended | confidence | as-written member | corrected member |
|---|---|---|---|---|---|---|
| greylistfilter/smtpproxy.py:77-90 | `do_grey` is bound only inside the threshold test, and line 90 reads it unconditionally | any message below a threshold, e.g. spam 0.5 against 1.0, or a message with no newline (default -999999) | below the thresholds, skip the query and relay the message unmodified | not executed | ProxyHandler.GateClosedRaises | ProxyHandler.IntendedGateClosedRelays |
| greylistfilter/smtpproxy.py:92 | the conditional expression spans the whole `%` expression, so a reasonless deferral replies the bare word `greylisted` | the policy answer `action=DEFER_IF_PERMIT` with no text | the reply `450 4.7.1 greylisted` | not executed | ProxyHandler.DeferReplyWithoutCode | ProxyHandler.IntendedRepliesAreCoded |
| greylistfilter/smtpproxy.py:106-109 | `handle_RSET` is declared without the server parameter that aiosmtpd passes first to every hook, so `session.fwd_info = {}` sets an attribute on the server, and the session keeps its metadata. `greylist_proxy_filter.py:102-105` has the same code. | `XFORWARD NAME=a ADDR=1.2.3.4 PROTO=SMTP`, then `RSET`, then a message: the greylist query still sees NAME and ADDR | RSET clears the session's metadata | not executed | Forwarding.RsetKeepsMetadata | Forwarding.RsetClearsMetadata |

`Forwarding.Session.ResetAsWritten` is RSET as bound, and `Forwarding.Session.Reset` the intended clearing. No other part of the model calls either, because `HandleData` takes the metadata as an input. `ProxyHandler.HandleData` and `Decide` keep the code's behaviour. `ProxyHandler.DecideIntended` and `DeferReplyIntended` are the corrected decision, and `IntendedAgreesWhenGated` shows how little they change.
