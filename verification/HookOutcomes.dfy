/** What comes of a hook, told apart from how the runtime gets there: which events concern a
    registration, what its handler does, and what that does to the event.
 */
module HookOutcomes {
  import opened HookRuntime
  import opened Wrappers

  // ---------- which events concern a registration ----------

  /** The text the payload holds under `key`; none is the empty one. */
  function TextAt(payload: map<string, Value>, key: string): string {
    if key in payload && payload[key].Text? then payload[key].text else ""
  }

  /** Seven keys ask for one text, one for one of several; any other key is no criterion. */
  ghost predicate Concerned(event: Event, reg: Registration) {
    && (forall key :: key in reg.filter && key in {"tool_type", "tool_name", "tool_id", "agent_id", "skill_id",
                                                   "error_type", "tenant_id"} ==>
          reg.filter[key] == Text(TextAt(event.payload, key)))
    && ("tool_types" in reg.filter ==>
          && reg.filter["tool_types"].Items? && "tool_types" in event.payload && event.payload["tool_types"].Text?
          && event.payload["tool_types"] in reg.filter["tool_types"].items)
  }

  lemma MatchesIffConcerned(event: Event, reg: Registration)
    ensures Matches(event, reg) <==> Concerned(event, reg)
  {
  }

  // ---------- what a handler does ----------

  datatype Happening =
    Passes | Refused(code: string, reason: string) | FailsAloud(error: string) | FailsSilently(error: string)

  /** The tools a permission check allows; `limits` says that it allows any by name. */
  ghost predicate Allows(reg: Registration, tool: string) {
    && "allowed_tools" in reg.filter && reg.filter["allowed_tools"].Items?
    && Text(tool) in reg.filter["allowed_tools"].items
  }

  ghost predicate Limits(reg: Registration) {
    exists tool :: Allows(reg, tool)
  }

  ghost function InternalHappening(event: Event, reg: Registration, name: string): Happening {
    var tool := TextAt(event.payload, "tool_name");
    if name == "audit_logger" || name == "log_only" then Passes
    else if name == "permission_check" then
      if Limits(reg) && !Allows(reg, tool)
      then Refused("permission_denied", "tool '" + tool + "' is not in the allowed list") else Passes
    else if name == "deny_tool_for_test" then
      Refused("policy_denied", "test deny: tool blocked by deny_tool_for_test handler")
    else if name == "fail_for_test" then FailsSilently("test failure: handler failed intentionally")
    else if name == "timeout_for_test" then FailsAloud("test timeout: handler timed out")
    else FailsSilently("unknown internal handler: " + name)
  }

  /** A call over HTTP counts with a status from 200 to 299 and a body below the size limit that can be
      read and parsed. */
  ghost function HttpHappening(limit: int, reply: Reply): Happening {
    match reply
    case NoReply(e) => FailsAloud(e)
    case Replied(status, statusError, body) =>
      if status < 200 || status > 299 then FailsAloud(statusError)
      else match body
        case Unreadable(e) => FailsAloud(e)
        case Unparsable(length, e) =>
          FailsAloud(if length >= limit then "handler response exceeded max size" else e)
        case Parsed(length, continues, code, reason) =>
          if length >= limit then FailsAloud("handler response exceeded max size")
          else if continues then Passes
          else Refused(if code == "" then "policy_denied" else code, reason)
  }

  ghost function Happens(c: Config, event: Event, h: Handler): Happening {
    if "internal:" <= h.reg.url then InternalHappening(event, h.reg, h.reg.url[9..])
    else if "http://" <= h.reg.url || "https://" <= h.reg.url then HttpHappening(c.maxResultBytes, h.reply)
    else FailsSilently("unsupported handler_url scheme: " + h.reg.url)
  }

  // ---------- what that does ----------

  /** The event is stopped: by a refusal, or by a failure that is not silent under fail-closed; of a
      blocking registration, while blocking is on. */
  ghost predicate Stops(c: Config, reg: Registration, what: Happening) {
    reg.blocking && c.blockingEnabled && (what.Refused? || (what.FailsAloud? && c.blockingFailClosed))
  }

  ghost predicate Fails(what: Happening) {
    what.FailsAloud? || what.FailsSilently?
  }

  /** The result says what happened and what it does, and nothing else. */
  ghost predicate Tells(c: Config, reg: Registration, what: Happening, r: Result) {
    var stops := Stops(c, reg, what);
    && r.handlerName == reg.name && r.blockingConfigured == reg.blocking
    && r.blockingEffective == (reg.blocking && c.blockingEnabled)
    && r.decisionEnforced == stops && r.continueDecision == !stops
    && r.success == !Fails(what)
    && r.error == r.warning == (if Fails(what) then what.error else "")
    && r.rejectCode == (if what.Refused? then what.code else if stops then "handler_error" else "")
    && r.rejectReason == (if what.Refused? then what.reason else if stops then what.error else "")
    && r.suppressedReason ==
       (if (what.Refused? && !stops) || (what.FailsAloud? && reg.blocking && !c.blockingEnabled)
        then "blocking_disabled_by_config" else "")
  }

  lemma {:induction false} TextsExact(items: seq<Value>, tool: string)
    ensures tool in Texts(items) <==> Text(tool) in items
    ensures Texts(items) != [] ==> Texts(items)[0] in Texts(items)
  {
    if items != [] { TextsExact(items[1..], tool); }
  }

  lemma AllowlistExact(reg: Registration, tool: string)
    ensures tool in Allowlist(reg) <==> Allows(reg, tool)
    ensures Allowlist(reg) != [] <==> Limits(reg)
  {
    if "allowed_tools" in reg.filter && reg.filter["allowed_tools"].Items? {
      var items := reg.filter["allowed_tools"].items;
      forall t ensures t in Texts(items) <==> Text(t) in items { TextsExact(items, t); }
      TextsExact(items, tool);
      if Texts(items) != [] { assert Allows(reg, Texts(items)[0]); }
    }
  }

  /** What the kinds of internal handlers do. */
  ghost function KindHappening(event: Event, reg: Registration, kind: Kind, name: string): Happening {
    match kind
    case AuditLogger => InternalHappening(event, reg, "audit_logger")
    case LogOnly => InternalHappening(event, reg, "log_only")
    case PermissionCheck => InternalHappening(event, reg, "permission_check")
    case DenyTool => InternalHappening(event, reg, "deny_tool_for_test")
    case FailTest => InternalHappening(event, reg, "fail_for_test")
    case TimeoutTest => InternalHappening(event, reg, "timeout_for_test")
    case Unknown => FailsSilently("unknown internal handler: " + name)
  }

  lemma KindIsNamed(event: Event, reg: Registration)
    requires IsInternal(reg.url)
    ensures InternalHappening(event, reg, InternalName(reg.url)) ==
            KindHappening(event, reg, KindOf(reg.url), InternalName(reg.url))
  {
  }

  lemma CheckTells(c: Config, event: Event, reg: Registration)
    requires IsInternal(reg.url)
    ensures Tells(c, reg, InternalHappening(event, reg, "permission_check"),
                  RunKind(c, event, reg, PermissionCheck, FreshResult(c, reg)))
  {
    AllowlistExact(reg, ToolName(event));
    assert ToolName(event) == TextAt(event.payload, "tool_name");
  }

  lemma KindTells(c: Config, event: Event, reg: Registration, kind: Kind)
    requires IsInternal(reg.url)
    ensures Tells(c, reg, KindHappening(event, reg, kind, InternalName(reg.url)),
                  RunKind(c, event, reg, kind, FreshResult(c, reg)))
  {
    if kind == PermissionCheck { CheckTells(c, event, reg); }
  }

  lemma InternalTells(c: Config, event: Event, reg: Registration)
    requires IsInternal(reg.url)
    ensures Tells(c, reg, InternalHappening(event, reg, reg.url[9..]),
                  RunInternal(c, event, reg, FreshResult(c, reg)))
  {
    assert InternalName(reg.url) == reg.url[9..];
    KindIsNamed(event, reg);
    KindTells(c, event, reg, KindOf(reg.url));
  }

  lemma HttpTells(c: Config, reg: Registration, reply: Reply)
    ensures Tells(c, reg, HttpHappening(c.maxResultBytes, reply), RunHttp(c, reply, FreshResult(c, reg)))
  {
  }

  /** The result of every handler tells what happened, for every configuration. */
  lemma ExecutedTells(c: Config, event: Event, h: Handler)
    ensures Tells(c, h.reg, Happens(c, event, h), Executed(c, event, h))
  {
    if IsInternal(h.reg.url) { InternalTells(c, event, h.reg); }
    else if IsHttp(h.reg.url) { HttpTells(c, h.reg, h.reply); }
  }

  // ---------- the verdict ----------

  /** `at` lists the registrations the event concerns, in order. */
  ghost predicate Selects(event: Event, handlers: seq<Handler>, at: seq<nat>) {
    && (forall k :: 0 <= k < |at| ==> at[k] < |handlers|)
    && (forall j, k :: 0 <= j < k < |at| ==> at[j] < at[k])
    && forall i: nat :: i < |handlers| ==> (i in at <==> Concerned(event, handlers[i].reg))
  }

  /** One result for each of them, telling what happened. */
  ghost predicate TellAll(c: Config, event: Event, handlers: seq<Handler>, at: seq<nat>, results: seq<Result>)
    requires forall k :: 0 <= k < |at| ==> at[k] < |handlers|
  {
    |results| == |at| && forall k :: 0 <= k < |at| ==>
      Tells(c, handlers[at[k]].reg, Happens(c, event, handlers[at[k]]), results[k])
  }

  lemma SelectsOneMore(event: Event, handlers: seq<Handler>, at: seq<nat>, last: Handler)
    requires Selects(event, handlers, at)
    ensures Selects(event, handlers + [last], if Concerned(event, last.reg) then at + [|handlers|] else at)
  {
    var more := if Concerned(event, last.reg) then at + [|handlers|] else at;
    var all := handlers + [last];
    assert |handlers| !in at;
    forall i: nat | i < |all| ensures i in more <==> Concerned(event, all[i].reg) {
      if i < |handlers| { assert i in at <==> Concerned(event, handlers[i].reg); }
    }
  }

  lemma TellOneMore(c: Config, event: Event, handlers: seq<Handler>, at: seq<nat>, results: seq<Result>, last: Handler,
                    r: Result)
    requires (forall k :: 0 <= k < |at| ==> at[k] < |handlers|) && TellAll(c, event, handlers, at, results)
    requires Tells(c, last.reg, Happens(c, event, last), r)
    ensures TellAll(c, event, handlers + [last], at, results)
    ensures TellAll(c, event, handlers + [last], at + [|handlers|], results + [r])
  {
    var all, more, rs := handlers + [last], at + [|handlers|], results + [r];
    assert all[|handlers|] == last;
    forall k | 0 <= k < |at| ensures Tells(c, all[at[k]].reg, Happens(c, event, all[at[k]]), results[k]) {
      assert all[at[k]] == handlers[at[k]];
    }
  }

  lemma {:induction false} ResultsTell(c: Config, event: Event, handlers: seq<Handler>) returns (at: seq<nat>)
    ensures Selects(event, handlers, at) && TellAll(c, event, handlers, at, Results(c, event, handlers))
  {
    if handlers == [] {
      at := [];
    } else {
      var init, last := handlers[..|handlers| - 1], handlers[|handlers| - 1];
      assert handlers == init + [last];
      at := ResultsTell(c, event, init);
      SelectsOneMore(event, init, at, last);
      MatchesIffConcerned(event, last.reg);
      ExecutedTells(c, event, last);
      TellOneMore(c, event, init, at, Results(c, event, init), last, Executed(c, event, last));
      assert Results(c, event, init) + [] == Results(c, event, init);
      at := if Concerned(event, last.reg) then at + [|init|] else at;
    }
  }

  lemma {:induction false} FirstEnforcedAt(results: seq<Result>) returns (k: nat)
    requires FirstEnforced(results).Some?
    ensures k < |results| && results[k] == FirstEnforced(results).value && results[k].decisionEnforced
    ensures forall j :: 0 <= j < k ==> !results[j].decisionEnforced
  {
    var n := |results| - 1;
    if FirstEnforced(results[..n]).Some? {
      k := FirstEnforcedAt(results[..n]);
    } else {
      NoneEnforced(results[..n]);
      k := n;
    }
  }

  lemma {:induction false} NoneEnforced(results: seq<Result>)
    requires FirstEnforced(results).None?
    ensures forall j :: 0 <= j < |results| ==> !results[j].decisionEnforced
  {
    if results != [] { NoneEnforced(results[..|results| - 1]); }
  }

  /** The results in turn that carry a warning. */
  ghost predicate WarnsOf(results: seq<Result>, warnings: seq<string>) {
    if results == [] then warnings == []
    else if results[|results| - 1].warning == "" then WarnsOf(results[..|results| - 1], warnings)
    else warnings != [] && warnings[|warnings| - 1] == results[|results| - 1].warning
         && WarnsOf(results[..|results| - 1], warnings[..|warnings| - 1])
  }

  lemma {:induction false} WarningsAre(results: seq<Result>)
    ensures WarnsOf(results, Warnings(results))
  {
    if results != [] {
      var init := results[..|results| - 1];
      WarningsAre(init);
      assert Warnings(init) + [] == Warnings(init);
      assert (Warnings(init) + [results[|results| - 1].warning])[..|Warnings(init)|] == Warnings(init);
    }
  }

  /** The verdict names the first result that stops the event, and lets it through if there is none. */
  ghost predicate Concludes(d: Decision) {
    && d.canContinue == !d.denied
    && (d.denied ==> exists k :: 0 <= k < |d.results| && NamedBy(d, k))
    && (!d.denied ==> d.rejectCode == d.rejectReason == d.deniedByHandler == "" &&
                      forall k :: 0 <= k < |d.results| ==> !d.results[k].decisionEnforced)
    && (d.hasBlockingHooks <==> exists k :: 0 <= k < |d.results| && d.results[k].blockingConfigured)
    && (d.hasEffectiveBlocking <==> exists k :: 0 <= k < |d.results| && d.results[k].blockingEffective)
    && WarnsOf(d.results, d.warnings)
  }

  ghost predicate NamedBy(d: Decision, k: nat)
    requires k < |d.results|
  {
    var r := d.results[k];
    && r.decisionEnforced && d.rejectCode == r.rejectCode && d.rejectReason == r.rejectReason
    && d.deniedByHandler == r.handlerName && forall j :: 0 <= j < k ==> !d.results[j].decisionEnforced
  }

  lemma CombinedConcludes(results: seq<Result>)
    ensures Combined(results).results == results && Concludes(Combined(results))
  {
    WarningsAre(results);
    var d := Combined(results);
    if d.denied {
      var k := FirstEnforcedAt(results);
      assert NamedBy(d, k);
    } else {
      NoneEnforced(results);
    }
    if r :| r in results && r.blockingConfigured { var k :| 0 <= k < |results| && results[k] == r; }
    if r :| r in results && r.blockingEffective { var k :| 0 <= k < |results| && results[k] == r; }
  }

  /** No handler runs: two deep, by a workspace append of a hook, or while hooks are off. */
  ghost predicate LetThrough(c: Config, event: Event) {
    event.recursionDepth >= 2 || (event.hookOrigin && event.hookPoint == "on_workspace_append") || !c.hooksEnabled
  }

  /** One result for each registration concerned, in order, and the verdict that follows from them. */
  ghost predicate Decides(c: Config, event: Event, handlers: seq<Handler>, d: Decision) {
    (exists at :: Selects(event, handlers, at) && TellAll(c, event, handlers, at, d.results)) && Concludes(d)
  }

  lemma {:induction false} CombinedDecides(c: Config, event: Event, handlers: seq<Handler>)
    ensures Decides(c, event, handlers, Combined(Results(c, event, handlers)))
  {
    var at := ResultsTell(c, event, handlers);
    CombinedConcludes(Results(c, event, handlers));
  }

  /** The whole decision. Where no handler runs, and where the registrations cannot be listed, the event
      is let through, in the latter case with a warning. */
  lemma VerdictTells(c: Config, event: Event, listed: Option<seq<Handler>>, listError: string)
    ensures var d := Emitted(c, event, listed, listError);
            if LetThrough(c, event) then d == Decision([], false, false, false, true, "", "", "", [])
            else match listed
              case None => d == Decision([], false, false, false, true, "", "", "", ["list hooks failed: " + listError])
              case Some(handlers) => Decides(c, event, handlers, d)
  {
    if listed.Some? { CombinedDecides(c, event, listed.value); }
  }
}
