/**
 * rot, the settings command-line tool: which positional arguments it accepts
 * before it talks to the service, and how it renders a scalar JSON value.
 */
module Rot {
  import opened Wrappers

  const ExitFailure := 1

  /** An accepted invocation: rot <api> <action> <propertyOrSignal> [value]. */
  datatype Command = Command(api: string, action: string, property: string, value: Option<string>)

  datatype Decision =
    | Usage                     // the help text, exit status EXIT_FAILURE
    | Unsupported(api: string)  // "Unable to work with <api>", exit status EXIT_FAILURE
    | Proceed(command: Command) // the request goes to the service

  predicate KnownAction(action: string)
  {
    action in {"get", "set", "listen"}
  }

  predicate KnownApi(api: string)
  {
    api in {"power", "wifi"}
  }

  /** The argument checks of main, in their order: arity, action, the value of a set, the api. */
  function Decide(args: seq<string>): (d: Decision)
    ensures d.Usage? <==> |args| < 3 || !KnownAction(args[1]) || (args[1] == "set" && |args| < 4)
    ensures d.Unsupported? <==> !d.Usage? && !KnownApi(args[0])
    ensures d.Unsupported? ==> d.api == args[0]
    ensures d.Proceed? ==>
              && KnownApi(d.command.api) && KnownAction(d.command.action)
              && args[..3] == [d.command.api, d.command.action, d.command.property]
              && (d.command.value.Some? <==> d.command.action == "set")
              && (d.command.value.Some? ==> d.command.value.value == args[3])
  {
    if |args| < 3 then Usage
    else if !KnownAction(args[1]) then Usage
    else if args[1] == "set" && |args| < 4 then Usage
    else if !KnownApi(args[0]) then Unsupported(args[0])
    else Proceed(Command(args[0], args[1], args[2], if args[1] == "set" then Some(args[3]) else None))
  }

  /** The exit status of a rejected invocation; an accepted one ends as the service call does. */
  function ExitStatus(d: Decision): (status: Option<int>)
    ensures status.None? <==> d.Proceed?
    ensures status.Some? ==> status.value == ExitFailure
  {
    match d
    case Usage => Some(ExitFailure)
    case Unsupported(_) => Some(ExitFailure)
    case Proceed(_) => None
  }

  /** Arguments after the ones an action uses change nothing. */
  lemma {:induction false} ExtraArgumentsIgnored(args: seq<string>, extra: seq<string>)
    requires |args| >= 3 && (|args| >= 4 || (|args| == 3 && args[1] != "set"))
    ensures Decide(args + extra) == Decide(args)
  {
    var all := args + extra;
    assert all[..3] == args[..3];
    assert all[0] == args[0] && all[1] == args[1] && all[2] == args[2];
    if |args| >= 4 {
      assert all[3] == args[3];
    }
  }

  /** A QJsonValue as toJson sees it; number, object and array contents are not rendered here. */
  datatype JsonValue =
    | JBool(b: bool)
    | JNull
    | JUndefined
    | JDouble
    | JString(s: string)
    | JObject
    | JArray

  predicate IsScalar(v: JsonValue)
  {
    v.JBool? || v.JNull? || v.JUndefined? || v.JString?
  }

  /** toJson's scalar branches; None for the kinds it renders through number formatting or a document. */
  function ToJson(v: JsonValue): (r: Option<string>)
    ensures r.Some? <==> IsScalar(v)
    ensures v.JString? ==> r == Some(v.s)
  {
    match v
    case JBool(b) => Some(if b then "true" else "false")
    case JNull => Some("null")
    case JUndefined => Some("undefined")
    case JString(s) => Some(s)
    case _ => None
  }

  /** Reading back a keyword toJson writes. */
  function FromKeyword(s: string): (v: Option<JsonValue>)
    ensures v.Some? ==> !v.value.JString? && IsScalar(v.value)
  {
    if s == "true" then Some(JBool(true))
    else if s == "false" then Some(JBool(false))
    else if s == "null" then Some(JNull)
    else if s == "undefined" then Some(JUndefined)
    else None
  }

  /** Booleans, null and undefined come out as distinct keywords that read back as themselves. */
  lemma KeywordRoundTrip(v: JsonValue)
    requires IsScalar(v) && !v.JString?
    ensures ToJson(v).Some? && FromKeyword(ToJson(v).value) == Some(v)
  {
  }

  /** A string renders verbatim, so the one that spells a keyword is indistinguishable from that keyword. */
  lemma StringShadowsKeyword(s: string)
    requires FromKeyword(s).Some?
    ensures ToJson(JString(s)) == ToJson(FromKeyword(s).value)
  {
  }
}
