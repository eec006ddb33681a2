/** `PostfixProxyServer.smtp_XFORWARD` and `handle_RSET`: the per-session
    forwarding metadata (`session.fwd_info`) that the upstream server supplies. */
module Forwarding {
  import opened Wrappers
  import opened Text

  /** `XF_ARGS`. */
  const XfArgs: set<string> := {"NAME", "ADDR", "PROTO", "HELO"}

  /** The success reply of XFORWARD, RSET and DATA. */
  const ReplyOk: string := "250 Ok"
  const ReplySyntaxError: string := "501 Syntax error"

  /** `dict()` raises ValueError when an argument does not split into exactly
      one key and one value; nothing in the handler catches it. */
  datatype XForwardError = MalformedArgument(token: string)

  /** `dict(x.split('=') for x in tokens)`, building on `acc`: a later key wins. */
  function ToDict(tokens: seq<string>, acc: map<string, string>): Result<map<string, string>, XForwardError>
  {
    if tokens == [] then Success(acc)
    else
      var kv := Split(tokens[0], '=');
      if |kv| != 2 then Failure(MalformedArgument(tokens[0]))
      else ToDict(tokens[1..], acc[kv[0] := kv[1]])
  }

  /** The keyword arguments of one XFORWARD command. */
  function ParseArgs(args: string): Result<map<string, string>, XForwardError>
  {
    ToDict(Split(args, ' '), map[])
  }

  /** `fwd_info.update(kwargs)` when the attribute exists, `fwd_info = kwargs` otherwise. */
  function Merge(fwd: Option<map<string, string>>, kwargs: map<string, string>): map<string, string>
  {
    match fwd
    case None => kwargs
    case Some(info) => info + kwargs
  }

  /** The metadata after one XFORWARD and what the handler answers. */
  datatype Step = Step(fwd: Option<map<string, string>>, reply: Result<string, XForwardError>)

  /** One XFORWARD command applied to the session's metadata (None: not yet set). */
  function XForwardStep(fwd: Option<map<string, string>>, args: string): Step
  {
    match ParseArgs(args)
    case Failure(e) => Step(fwd, Failure(e))
    case Success(kwargs) =>
      if !(kwargs.Keys <= XfArgs) then Step(fwd, Success(ReplySyntaxError))
      else Step(Some(Merge(fwd, kwargs)), Success(ReplyOk))
  }

  /** Keys are always among `XF_ARGS`. */
  predicate WellKeyed(fwd: Option<map<string, string>>)
  {
    fwd.Some? ==> fwd.value.Keys <= XfArgs
  }

  /** The session object's `fwd_info` attribute; `None` stands for the
      attribute not existing yet (`hasattr` false). */
  class Session {
    var fwdInfo: Option<map<string, string>>

    ghost predicate Valid()
      reads this
    {
      WellKeyed(fwdInfo)
    }

    constructor ()
      ensures Valid() && fwdInfo == None
    {
      fwdInfo := None;
    }

    /** `smtp_XFORWARD(args)`; the reply is what it pushes to the client. */
    method XForward(args: string) returns (reply: Result<string, XForwardError>)
      requires Valid()
      modifies this
      ensures Valid()
      ensures fwdInfo == XForwardStep(old(fwdInfo), args).fwd
      ensures reply == XForwardStep(old(fwdInfo), args).reply
    {
      var kwargs := ParseArgs(args);
      if kwargs.Failure? {
        return Failure(kwargs.error);
      }
      if !(kwargs.value.Keys <= XfArgs) {
        return Success(ReplySyntaxError);
      }
      if fwdInfo.Some? {
        fwdInfo := Some(fwdInfo.value + kwargs.value);
      } else {
        fwdInfo := Some(kwargs.value);
      }
      reply := Success(ReplyOk);
    }

    /** `handle_RSET` as intended: the metadata is replaced by an empty dict. */
    method Reset() returns (reply: string)
      modifies this
      ensures Valid()
      ensures fwdInfo == Some(map[]) && reply == ReplyOk
    {
      fwdInfo := Some(map[]);
      reply := ReplyOk;
    }

    /** `handle_RSET` as it is bound: the hook is declared without the server
        parameter the other hooks take, so its `session` is the server object
        and its assignment never reaches this session's metadata. */
    method ResetAsWritten() returns (reply: string)
      ensures reply == ReplyOk
    {
      reply := ReplyOk;
    }
  }

  /** As written, metadata sent before RSET is still there after it: a fresh
      session given NAME, ADDR and PROTO keeps all three across RSET. */
  method RsetKeepsMetadata(name: string, addr: string, proto: string) returns (after: Option<map<string, string>>)
    requires Plain(name) && Plain(addr) && Plain(proto)
    ensures after == Some(map["NAME" := name, "ADDR" := addr, "PROTO" := proto])
  {
    var session := new Session();
    FirstXForward(name, addr, proto);
    var _ := session.XForward("NAME=" + name + " ADDR=" + addr + " PROTO=" + proto);
    var _ := session.ResetAsWritten();
    after := session.fwdInfo;
  }

  /** As intended, RSET forgets the metadata: a later HELO command then
      leaves HELO as the only key. */
  method RsetClearsMetadata(name: string, addr: string, proto: string, helo: string) returns (after: Option<map<string, string>>)
    requires Plain(name) && Plain(addr) && Plain(proto) && Plain(helo)
    ensures after == Some(map["HELO" := helo])
  {
    var session := new Session();
    var _ := session.XForward("NAME=" + name + " ADDR=" + addr + " PROTO=" + proto);
    var _ := session.Reset();
    HeloXForward(map[], helo);
    var _ := session.XForward("HELO=" + helo);
    after := session.fwdInfo;
  }

  // ---------------------------------------------------------------------
  // What the store promises

  /** Only keys from `XF_ARGS` ever get in. */
  lemma XForwardKeepsKeys(fwd: Option<map<string, string>>, args: string)
    requires WellKeyed(fwd)
    ensures WellKeyed(XForwardStep(fwd, args).fwd)
  {
  }

  /** All or nothing: a command naming any key outside `XF_ARGS` is answered
      `501 Syntax error` and changes nothing, and a malformed argument raises
      and changes nothing. */
  lemma RejectedLeavesUnchanged(fwd: Option<map<string, string>>, args: string)
    requires XForwardStep(fwd, args).reply != Success(ReplyOk)
    ensures XForwardStep(fwd, args).fwd == fwd
    ensures XForwardStep(fwd, args).reply.Success? ==>
              ParseArgs(args).Success? && exists k :: k in ParseArgs(args).value && k !in XfArgs
  {
  }

  /** An accepted command merges: earlier keys it does not name survive, the
      keys it names take its values. */
  lemma AcceptedMerges(fwd: Option<map<string, string>>, args: string)
    requires XForwardStep(fwd, args).reply == Success(ReplyOk)
    ensures ParseArgs(args).Success?
    ensures var info := XForwardStep(fwd, args).fwd;
            var kwargs := ParseArgs(args).value;
            info.Some? &&
            info.value.Keys == kwargs.Keys + (if fwd.Some? then fwd.value.Keys else {}) &&
            (forall k :: k in kwargs ==> info.value[k] == kwargs[k]) &&
            (forall k :: fwd.Some? && k in fwd.value && k !in kwargs ==> info.value[k] == fwd.value[k])
  {
  }

  // ---------------------------------------------------------------------
  // The argument format: `K1=V1 K2=V2 ...`

  /** A key or value that splits cleanly: no space and no `=`. */
  predicate Plain(s: string)
  {
    ' ' !in s && '=' !in s
  }

  function FormatPair(p: (string, string)): string
  {
    p.0 + "=" + p.1
  }

  function FormatTokens(pairs: seq<(string, string)>): (tokens: seq<string>)
    ensures |tokens| == |pairs|
    ensures forall i :: 0 <= i < |pairs| ==> tokens[i] == FormatPair(pairs[i])
  {
    if pairs == [] then [] else [FormatPair(pairs[0])] + FormatTokens(pairs[1..])
  }

  /** The command argument string that sends these pairs in order. */
  function FormatArgs(pairs: seq<(string, string)>): string
  {
    Join(FormatTokens(pairs), ' ')
  }

  /** The dict the pairs make, a later key winning. */
  function PairsMap(pairs: seq<(string, string)>, acc: map<string, string>): map<string, string>
  {
    if pairs == [] then acc else PairsMap(pairs[1..], acc[pairs[0].0 := pairs[0].1])
  }

  /** Parsing the formatted arguments gives back exactly the pairs' dict. */
  lemma ParseFormatted(pairs: seq<(string, string)>)
    requires |pairs| >= 1
    requires forall i :: 0 <= i < |pairs| ==> Plain(pairs[i].0) && Plain(pairs[i].1)
    ensures ParseArgs(FormatArgs(pairs)) == Success(PairsMap(pairs, map[]))
  {
    var tokens := FormatTokens(pairs);
    forall i | 0 <= i < |tokens| ensures ' ' !in tokens[i] {
      assert tokens[i] == pairs[i].0 + "=" + pairs[i].1;
    }
    SplitJoin(tokens, ' ');
    ToDictFormatted(pairs, map[]);
  }

  lemma {:induction false} ToDictFormatted(pairs: seq<(string, string)>, acc: map<string, string>)
    requires forall i :: 0 <= i < |pairs| ==> Plain(pairs[i].0) && Plain(pairs[i].1)
    ensures ToDict(FormatTokens(pairs), acc) == Success(PairsMap(pairs, acc))
  {
    if pairs != [] {
      var (k, v) := pairs[0];
      SplitJoin([k, v], '=');
      assert Join([k, v], '=') == FormatPair(pairs[0]);
      assert FormatTokens(pairs)[1..] == FormatTokens(pairs[1..]);
      ToDictFormatted(pairs[1..], acc[k := v]);
    }
  }

  lemma ParseSingle(key: string, value: string)
    requires Plain(key) && Plain(value)
    ensures ParseArgs(key + "=" + value) == Success(map[key := value])
  {
    var p := [(key, value)];
    assert FormatArgs(p) == key + "=" + value;
    ParseFormatted(p);
    assert PairsMap(p, map[]) == map[key := value];
  }

  lemma ParseNameAddrProto(name: string, addr: string, proto: string)
    requires Plain(name) && Plain(addr) && Plain(proto)
    ensures ParseArgs("NAME=" + name + " ADDR=" + addr + " PROTO=" + proto) ==
            Success(map["NAME" := name, "ADDR" := addr, "PROTO" := proto])
  {
    var p := [("NAME", name), ("ADDR", addr), ("PROTO", proto)];
    var t := FormatTokens(p);
    assert t[0] == "NAME=" + name by { assert "NAME" + "=" == "NAME="; }
    assert t[1] == "ADDR=" + addr by { assert "ADDR" + "=" == "ADDR="; }
    assert t[2] == "PROTO=" + proto by { assert "PROTO" + "=" == "PROTO="; }
    assert |t| == 3 && t[1..][1..] == [t[2]];
    assert Join(t[1..][1..], ' ') == t[2];
    assert Join(t[1..], ' ') == t[1] + " " + t[2];
    assert Join(t, ' ') == t[0] + " " + (t[1] + " " + t[2]);
    assert FormatArgs(p) == "NAME=" + name + " ADDR=" + addr + " PROTO=" + proto;
    ParseFormatted(p);
    assert p[1..][1..][1..] == [];
    assert PairsMap(p, map[]) == PairsMap(p[1..], map["NAME" := name]);
    assert PairsMap(p[1..], map["NAME" := name]) == PairsMap(p[1..][1..], map["NAME" := name, "ADDR" := addr]);
  }

  /** The first command of the server test: NAME, ADDR and PROTO on a fresh session. */
  lemma FirstXForward(name: string, addr: string, proto: string)
    requires Plain(name) && Plain(addr) && Plain(proto)
    ensures XForwardStep(None, "NAME=" + name + " ADDR=" + addr + " PROTO=" + proto) ==
            Step(Some(map["NAME" := name, "ADDR" := addr, "PROTO" := proto]), Success(ReplyOk))
  {
    ParseNameAddrProto(name, addr, proto);
    assert map["NAME" := name, "ADDR" := addr, "PROTO" := proto].Keys == {"NAME", "ADDR", "PROTO"};
  }

  /** A HELO command adds its key to well-keyed metadata. */
  lemma HeloXForward(info: map<string, string>, helo: string)
    requires Plain(helo) && info.Keys <= XfArgs
    ensures XForwardStep(Some(info), "HELO=" + helo) == Step(Some(info["HELO" := helo]), Success(ReplyOk))
  {
    ParseSingle("HELO", helo);
    assert "HELO" + "=" + helo == "HELO=" + helo;
    assert info + map["HELO" := helo] == info["HELO" := helo];
  }

  /** A command with one key outside `XF_ARGS` is refused and changes nothing. */
  lemma ForeignKeyXForward(fwd: Option<map<string, string>>, key: string, value: string)
    requires Plain(key) && Plain(value) && key !in XfArgs
    ensures XForwardStep(fwd, key + "=" + value) == Step(fwd, Success(ReplySyntaxError))
  {
    ParseSingle(key, value);
  }

  /** The sequence of the server test, for any plain values: NAME, ADDR and
      PROTO give three keys, HELO then makes all four of `XF_ARGS`; a later
      command with a key outside `XF_ARGS` (the test sends `FOO=bar`) is refused
      and the four keys stay. */
  lemma ServerTestSequence(name: string, addr: string, proto: string, helo: string, key: string, value: string)
    requires Plain(name) && Plain(addr) && Plain(proto) && Plain(helo)
    requires Plain(key) && Plain(value) && key !in XfArgs
    ensures var first := XForwardStep(None, "NAME=" + name + " ADDR=" + addr + " PROTO=" + proto);
            var second := XForwardStep(first.fwd, "HELO=" + helo);
            var third := XForwardStep(second.fwd, key + "=" + value);
            first == Step(Some(map["NAME" := name, "ADDR" := addr, "PROTO" := proto]), Success(ReplyOk)) &&
            second == Step(Some(map["NAME" := name, "ADDR" := addr, "PROTO" := proto, "HELO" := helo]), Success(ReplyOk)) &&
            second.fwd.value.Keys == XfArgs &&
            third == Step(second.fwd, Success(ReplySyntaxError))
  {
    var info := map["NAME" := name, "ADDR" := addr, "PROTO" := proto];
    FirstXForward(name, addr, proto);
    assert info.Keys <= XfArgs;
    HeloXForward(info, helo);
    var info2 := info["HELO" := helo];
    assert info2.Keys == XfArgs;
    ForeignKeyXForward(Some(info2), key, value);
  }
}
