/** The hook runtime: every matching handler runs and writes into its own result; the results
    combine into one verdict.
 */
module HookRuntime {
  import opened Wrappers

  const ON_WORKSPACE_APPEND := "on_workspace_append"

  const PERMISSION_DENIED := "permission_denied"
  const POLICY_DENIED := "policy_denied"
  const HANDLER_ERROR := "handler_error"
  const BLOCKING_DISABLED := "blocking_disabled_by_config"

  const INTERNAL_PREFIX := "internal:"

  datatype Config = Config(hooksEnabled: bool, blockingEnabled: bool, blockingFailClosed: bool, maxResultBytes: int)

  /** What filters and payloads hold, as far as matching looks at it. */
  datatype Value = Text(text: string) | Items(items: seq<Value>) | Other

  datatype Event = Event(hookPoint: string, hookOrigin: bool, recursionDepth: int, payload: map<string, Value>)

  datatype Registration = Registration(name: string, url: string, blocking: bool, filter: map<string, Value>)

  datatype Body = Unreadable(readError: string) | Unparsable(length: nat, parseError: string)
    | Parsed(length: nat, continues: bool, rejectCode: string, rejectReason: string)

  /** How an HTTP handler reacts when it is called. */
  datatype Reply = NoReply(error: string) | Replied(status: int, statusError: string, body: Body)

  /** A registration together with the reaction its handler shows if it is an HTTP handler. */
  datatype Handler = Handler(reg: Registration, reply: Reply)

  datatype Result = Result(handlerName: string, success: bool, blockingConfigured: bool, blockingEffective: bool,
                           decisionEnforced: bool, suppressedReason: string, continueDecision: bool,
                           rejectCode: string, rejectReason: string, error: string, warning: string)

  datatype Decision = Decision(results: seq<Result>, hasBlockingHooks: bool, hasEffectiveBlocking: bool, denied: bool,
                               canContinue: bool, rejectCode: string, rejectReason: string, deniedByHandler: string,
                               warnings: seq<string>)

  // ---------- matching ----------

  predicate MatchesText(expected: Value, actual: Option<Value>) {
    expected.Text? && expected.text == if actual.Some? && actual.value.Text? then actual.value.text else ""
  }

  predicate MatchesOneOf(expected: Value, actual: Option<Value>) {
    expected.Items? && actual.Some? && actual.value.Text? && actual.value in expected.items
  }

  /** Keys that are not filter criteria configure the handler and always match. */
  predicate MatchesKey(key: string, expected: Value, actual: Option<Value>) {
    if key == "tool_types" then MatchesOneOf(expected, actual)
    else if key in {"tool_type", "tool_name", "tool_id", "agent_id", "skill_id", "error_type", "tenant_id"}
      then MatchesText(expected, actual)
    else true
  }

  function Lookup(m: map<string, Value>, key: string): Option<Value> {
    if key in m then Some(m[key]) else None
  }

  predicate Matches(event: Event, reg: Registration) {
    forall key :: key in reg.filter ==> MatchesKey(key, reg.filter[key], Lookup(event.payload, key))
  }

  // ---------- handlers as functions on results ----------

  predicate IsInternal(url: string) { INTERNAL_PREFIX <= url }

  predicate IsHttp(url: string) { "http://" <= url || "https://" <= url }

  function InternalName(url: string): string
    requires IsInternal(url)
  {
    url[|INTERNAL_PREFIX|..]
  }

  /** The internal handlers there are. */
  datatype Kind = AuditLogger | LogOnly | PermissionCheck | DenyTool | FailTest | TimeoutTest | Unknown

  function KindOf(url: string): Kind
    requires IsInternal(url)
  {
    match InternalName(url)
    case "audit_logger" => AuditLogger
    case "log_only" => LogOnly
    case "permission_check" => PermissionCheck
    case "deny_tool_for_test" => DenyTool
    case "fail_for_test" => FailTest
    case "timeout_for_test" => TimeoutTest
    case _ => Unknown
  }

  function Texts(items: seq<Value>): seq<string> {
    if items == [] then []
    else (if items[0].Text? then [items[0].text] else []) + Texts(items[1..])
  }

  function Allowlist(reg: Registration): seq<string> {
    if "allowed_tools" in reg.filter && reg.filter["allowed_tools"].Items?
        then Texts(reg.filter["allowed_tools"].items) else []
  }

  function ToolName(event: Event): string {
    if "tool_name" in event.payload && event.payload["tool_name"].Text? then event.payload["tool_name"].text else ""
  }

  function BlockingDecision(c: Config, r: Result): Result {
    if !r.blockingConfigured then r.(continueDecision := true, suppressedReason := BLOCKING_DISABLED)
    else if !c.blockingEnabled then
          r.(blockingEffective := false, continueDecision := true, suppressedReason := BLOCKING_DISABLED)
    else r.(blockingEffective := true, decisionEnforced := true)
  }

  function BlockingFailure(c: Config, r: Result): Result {
    if !r.blockingConfigured then r
    else if !c.blockingEnabled then r.(blockingEffective := false, suppressedReason := BLOCKING_DISABLED)
    else if c.blockingFailClosed then
      r.(blockingEffective := true, decisionEnforced := true, continueDecision := false, rejectCode := HANDLER_ERROR,
         rejectReason := if r.rejectReason == "" then r.error else r.rejectReason)
    else r.(blockingEffective := true, continueDecision := true)
  }

  function Broken(r: Result, error: string): Result {
    r.(success := false, error := error, warning := error)
  }

  function Denying(r: Result, code: string, reason: string): Result {
    r.(success := true, continueDecision := false, rejectCode := code, rejectReason := reason)
  }

  function Passing(r: Result): Result {
    r.(success := true, continueDecision := true)
  }

  const DENY_REASON := "test deny: tool blocked by deny_tool_for_test handler"
  const FAIL_ERROR := "test failure: handler failed intentionally"
  const TIMEOUT_ERROR := "test timeout: handler timed out"

  function NotAllowedReason(tool: string): string {
    "tool '" + tool + "' is not in the allowed list"
  }

  function RunInternal(c: Config, event: Event, reg: Registration, r: Result): Result
    requires IsInternal(reg.url)
  {
    RunKind(c, event, reg, KindOf(reg.url), r)
  }

  function RunKind(c: Config, event: Event, reg: Registration, kind: Kind, r: Result): Result
    requires IsInternal(reg.url)
  {
    match kind
    case AuditLogger => Passing(r)
    case LogOnly => Passing(r)
    case PermissionCheck =>
      if Allowlist(reg) != [] && ToolName(event) !in Allowlist(reg)
      then BlockingDecision(c, Denying(r, PERMISSION_DENIED, NotAllowedReason(ToolName(event))))
      else Passing(r)
    case DenyTool => BlockingDecision(c, Denying(r, POLICY_DENIED, DENY_REASON))
    case FailTest => Broken(r, FAIL_ERROR)
    case TimeoutTest => BlockingFailure(c, Broken(r, TIMEOUT_ERROR))
    case Unknown => Broken(r, "unknown internal handler: " + InternalName(reg.url))
  }

  predicate IsSuccessStatus(status: int) { 200 <= status < 300 }

  /** Reading stops at the size limit; a response that reaches it counts as too long. */
  predicate TooLong(c: Config, length: nat) {
    var read := if length < c.maxResultBytes then length else if c.maxResultBytes < 0 then 0 else c.maxResultBytes;
    read >= c.maxResultBytes
  }

  const TOO_LONG_ERROR := "handler response exceeded max size"

  /** The error an HTTP handler's reaction amounts to, or the empty option if it is a usable answer. */
  function HttpError(c: Config, reply: Reply): Option<string> {
    match reply
    case NoReply(e) => Some(e)
    case Replied(status, statusError, body) =>
      if !IsSuccessStatus(status) then Some(statusError)
      else if body.Unreadable? then Some(body.readError)
      else if TooLong(c, body.length) then Some(TOO_LONG_ERROR)
      else if body.Unparsable? then Some(body.parseError)
      else None
  }

  function RunHttp(c: Config, reply: Reply, r: Result): Result {
    var error := HttpError(c, reply);
    if error.Some? then BlockingFailure(c, Broken(r, error.value))
    else if reply.body.continues then Passing(r)
    else BlockingDecision(c, Denying(r, if reply.body.rejectCode == "" then POLICY_DENIED else reply.body.rejectCode,
                                     reply.body.rejectReason))
  }

  function FreshResult(c: Config, reg: Registration): Result {
    Result(reg.name, false, reg.blocking, reg.blocking && c.blockingEnabled, false, "", true, "", "", "", "")
  }

  function Executed(c: Config, event: Event, h: Handler): Result {
    var r := FreshResult(c, h.reg);
    if IsInternal(h.reg.url) then RunInternal(c, event, h.reg, r)
    else if IsHttp(h.reg.url) then RunHttp(c, h.reply, r)
    else Broken(r, "unsupported handler_url scheme: " + h.reg.url)
  }

  // ---------- the verdict as a function ----------

  /** Results of the matching handlers, in order. */
  function Results(c: Config, event: Event, handlers: seq<Handler>): seq<Result> {
    if handlers == [] then []
    else
      var last := handlers[|handlers| - 1];
      Results(c, event, handlers[..|handlers| - 1]) +
      if Matches(event, last.reg) then [Executed(c, event, last)] else []
  }

  function FirstEnforced(results: seq<Result>): Option<Result> {
    if results == [] then None
    else
      var before := FirstEnforced(results[..|results| - 1]);
      var last := results[|results| - 1];
      if before.None? && last.decisionEnforced then Some(last) else before
  }

  function Warnings(results: seq<Result>): seq<string> {
    if results == [] then []
    else
      var last := results[|results| - 1];
      Warnings(results[..|results| - 1]) + if last.warning != "" then [last.warning] else []
  }

  predicate AnyBlocking(results: seq<Result>) { exists r :: r in results && r.blockingConfigured }

  predicate AnyEffective(results: seq<Result>) { exists r :: r in results && r.blockingEffective }

  const LET_THROUGH := Decision([], false, false, false, true, "", "", "", [])

  /** Guards against hooks that trigger hooks. */
  predicate Recursive(event: Event) {
    event.recursionDepth >= 2 || (event.hookOrigin && event.hookPoint == ON_WORKSPACE_APPEND)
  }

  function Combined(results: seq<Result>): Decision {
    var d := FirstEnforced(results);
    Decision(results, AnyBlocking(results), AnyEffective(results), d.Some?, d.None?,
             if d.Some? then d.value.rejectCode else "", if d.Some? then d.value.rejectReason else "",
             if d.Some? then d.value.handlerName else "", Warnings(results))
  }

  /** `listed` is what the repository returns for the event's hook point, or its error. */
  function Emitted(c: Config, event: Event, listed: Option<seq<Handler>>, listError: string): Decision {
    if Recursive(event) || !c.hooksEnabled then LET_THROUGH
    else if listed.None? then LET_THROUGH.(warnings := ["list hooks failed: " + listError])
    else Combined(Results(c, event, listed.value))
  }

  // ---------- the runtime ----------

  /** One handler's result while the handler is filling it in. */
  class HookResult {
    const handlerName: string
    const blockingConfigured: bool
    var success: bool
    var blockingEffective: bool
    var decisionEnforced: bool
    var suppressedReason: string
    var continueDecision: bool
    var rejectCode: string
    var rejectReason: string
    var error: string
    var warning: string

    constructor (name: string, blocking: bool, effective: bool)
      ensures View() == Result(name, false, blocking, effective, false, "", true, "", "", "", "")
    {
      handlerName, blockingConfigured, blockingEffective := name, blocking, effective;
      success, decisionEnforced, continueDecision := false, false, true;
      suppressedReason, rejectCode, rejectReason, error, warning := "", "", "", "", "";
    }

    function View(): Result
      reads this
    {
      Result(handlerName, success, blockingConfigured, blockingEffective, decisionEnforced, suppressedReason,
             continueDecision, rejectCode, rejectReason, error, warning)
    }

    method Break(message: string)
      modifies this
      ensures View() == Broken(old(View()), message)
    {
      success, error := false, message;
      warning := error;
    }

    method Deny(code: string, reason: string)
      modifies this
      ensures View() == Denying(old(View()), code, reason)
    {
      success, continueDecision := true, false;
      rejectCode, rejectReason := code, reason;
    }

    method Pass()
      modifies this
      ensures View() == Passing(old(View()))
    {
      success, continueDecision := true, true;
    }
  }

  class Runtime {
    const config: Config

    constructor (config: Config)
      ensures this.config == config
    {
      this.config := config;
    }

    method ApplyBlockingDecision(result: HookResult)
      modifies result
      ensures result.View() == BlockingDecision(config, old(result.View()))
    {
      if !result.blockingConfigured {
        // a non-blocking handler said no: suppressed
        result.continueDecision := true;
        result.suppressedReason := BLOCKING_DISABLED;
        return;
      }
      if !config.blockingEnabled {
        result.blockingEffective := false;
        result.continueDecision := true;
        result.suppressedReason := BLOCKING_DISABLED;
        return;
      }
      result.blockingEffective := true;
      result.decisionEnforced := true;
    }

    method ApplyBlockingFailure(result: HookResult)
      modifies result
      ensures result.View() == BlockingFailure(config, old(result.View()))
    {
      if !result.blockingConfigured {
        return;
      }
      if !config.blockingEnabled {
        result.blockingEffective := false;
        result.suppressedReason := BLOCKING_DISABLED;
        return;
      }
      result.blockingEffective := true;
      if config.blockingFailClosed {
        result.decisionEnforced := true;
        result.continueDecision := false;
        result.rejectCode := HANDLER_ERROR;
        if result.rejectReason == "" {
          result.rejectReason := result.error;
        }
      } else {
        result.continueDecision := true;
      }
    }

    method RunPermissionCheck(event: Event, reg: Registration, result: HookResult)
      modifies result
      ensures result.View() == if Allowlist(reg) != [] && ToolName(event) !in Allowlist(reg)
                then BlockingDecision(config, Denying(old(result.View()), PERMISSION_DENIED,
                                                    NotAllowedReason(ToolName(event))))
                else Passing(old(result.View()))
    {
      var allowlist, toolName := Allowlist(reg), ToolName(event);
      if |allowlist| > 0 {
        var allowed := false;
        for i := 0 to |allowlist|
          invariant !allowed && toolName !in allowlist[..i]
          invariant result.View() == old(result.View())
        {
          if allowlist[i] == toolName {
            allowed := true;
            break;
          }
        }
        assert allowlist[..|allowlist|] == allowlist;
        if !allowed {
          result.Deny(PERMISSION_DENIED, NotAllowedReason(toolName));
          ApplyBlockingDecision(result);
          return;
        }
      }
      result.Pass();
    }

    method ExecuteInternal(event: Event, reg: Registration, result: HookResult)
      requires IsInternal(reg.url)
      modifies result
      ensures result.View() == RunInternal(config, event, reg, old(result.View()))
    {
      match InternalName(reg.url) {
        case "audit_logger" => result.Pass();
        case "log_only" => result.Pass();
        case "permission_check" => RunPermissionCheck(event, reg, result);
        case "deny_tool_for_test" =>
          result.Deny(POLICY_DENIED, DENY_REASON);
          ApplyBlockingDecision(result);
        case "fail_for_test" => result.Break(FAIL_ERROR);
        case "timeout_for_test" =>
          result.Break(TIMEOUT_ERROR);
          ApplyBlockingFailure(result);
        case name => result.Break("unknown internal handler: " + name);
      }
    }

    method ExecuteHttp(reply: Reply, result: HookResult)
      modifies result
      ensures result.View() == RunHttp(config, reply, old(result.View()))
    {
      if reply.NoReply? {
        result.Break(reply.error);
        ApplyBlockingFailure(result);
        return;
      }
      if reply.status < 200 || reply.status >= 300 {
        result.Break(reply.statusError);
        ApplyBlockingFailure(result);
        return;
      }
      if reply.body.Unreadable? {
        result.Break(reply.body.readError);
        ApplyBlockingFailure(result);
        return;
      }
      if TooLong(config, reply.body.length) {
        result.Break(TOO_LONG_ERROR);
        ApplyBlockingFailure(result);
        return;
      }
      if reply.body.Unparsable? {
        result.Break(reply.body.parseError);
        ApplyBlockingFailure(result);
        return;
      }
      result.success := true;
      result.continueDecision := reply.body.continues;
      if !reply.body.continues {
        result.rejectCode := reply.body.rejectCode;
        result.rejectReason := reply.body.rejectReason;
        if result.rejectCode == "" {
          result.rejectCode := POLICY_DENIED;
        }
        ApplyBlockingDecision(result);
      }
    }

    method ExecuteHandler(event: Event, h: Handler) returns (r: Result)
      ensures r == Executed(config, event, h)
    {
      var result := new HookResult(h.reg.name, h.reg.blocking, h.reg.blocking && config.blockingEnabled);
      if IsInternal(h.reg.url) {
        ExecuteInternal(event, h.reg, result);
      } else if IsHttp(h.reg.url) {
        ExecuteHttp(h.reply, result);
      } else {
        result.Break("unsupported handler_url scheme: " + h.reg.url);
      }
      r := result.View();
    }

    /** Runs every matching handler and keeps the first enforced result. */
    method ExecuteAll(event: Event, handlers: seq<Handler>)
      returns (results: seq<Result>, hasBlocking: bool, hasEffective: bool, deniedBy: Option<Result>)
      ensures results == Results(config, event, handlers)
      ensures hasBlocking == AnyBlocking(results) && hasEffective == AnyEffective(results)
      ensures deniedBy == FirstEnforced(results)
    {
      results, hasBlocking, hasEffective, deniedBy := [], false, false, None;
      for i := 0 to |handlers|
        invariant results == Results(config, event, handlers[..i])
        invariant hasBlocking == AnyBlocking(results) && hasEffective == AnyEffective(results)
        invariant deniedBy == FirstEnforced(results)
      {
        assert handlers[..i + 1][..i] == handlers[..i];
        if !Matches(event, handlers[i].reg) {
          continue;
        }
        var result := ExecuteHandler(event, handlers[i]);
        OneMoreResult(results, result);
        results := results + [result];
        hasBlocking := hasBlocking || result.blockingConfigured;
        hasEffective := hasEffective || result.blockingEffective;
        if result.decisionEnforced && deniedBy.None? {
          deniedBy := Some(result);
        }
      }
      assert handlers[..|handlers|] == handlers;
    }

    method CollectWarnings(results: seq<Result>) returns (warnings: seq<string>)
      ensures warnings == Warnings(results)
    {
      warnings := [];
      for i := 0 to |results|
        invariant warnings == Warnings(results[..i])
      {
        assert results[..i + 1][..i] == results[..i];
        if results[i].warning != "" {
          warnings := warnings + [results[i].warning];
        }
      }
      assert results[..|results|] == results;
    }

    method EmitAndExecute(event: Event, listed: Option<seq<Handler>>, listError: string) returns (d: Decision)
      ensures d == Emitted(config, event, listed, listError)
    {
      if event.recursionDepth >= 2 {
        return LET_THROUGH;
      }
      if event.hookOrigin && event.hookPoint == ON_WORKSPACE_APPEND {
        return LET_THROUGH;
      }
      if !config.hooksEnabled {
        return LET_THROUGH;
      }
      if listed.None? {
        return LET_THROUGH.(warnings := ["list hooks failed: " + listError]);
      }
      if |listed.value| == 0 {
        return LET_THROUGH;
      }
      var results, hasBlocking, hasEffective, deniedBy := ExecuteAll(event, listed.value);
      var warnings := CollectWarnings(results);
      d := Decision(results, hasBlocking, hasEffective, deniedBy.Some?, deniedBy.None?,
                    if deniedBy.Some? then deniedBy.value.rejectCode else "",
                    if deniedBy.Some? then deniedBy.value.rejectReason else "",
                    if deniedBy.Some? then deniedBy.value.handlerName else "", warnings);
    }
  }

  // ---------- who blocks ----------

  predicate KindRefuses(event: Event, reg: Registration, kind: Kind) {
    kind.DenyTool? || (kind.PermissionCheck? && Allowlist(reg) != [] && ToolName(event) !in Allowlist(reg))
  }

  /** The handler answers, and its answer is no. */
  predicate Refuses(c: Config, event: Event, h: Handler) {
    if IsInternal(h.reg.url) then KindRefuses(event, h.reg, KindOf(h.reg.url))
    else IsHttp(h.reg.url) && HttpError(c, h.reply).None? && !h.reply.body.continues
  }

  /** The handler fails in a way that fail-closed treats as a denial. */
  predicate FailsLoudly(c: Config, h: Handler) {
    if IsInternal(h.reg.url) then KindOf(h.reg.url).TimeoutTest?
    else IsHttp(h.reg.url) && HttpError(c, h.reply).Some?
  }

  /** The handler fails in a way that never reaches the fail-closed rule. */
  predicate FailsQuietly(h: Handler) {
    if IsInternal(h.reg.url) then KindOf(h.reg.url).FailTest? || KindOf(h.reg.url).Unknown?
    else !IsHttp(h.reg.url)
  }

  predicate Blocks(c: Config, event: Event, h: Handler) {
    && Matches(event, h.reg) && h.reg.blocking && c.blockingEnabled
    && (Refuses(c, event, h) || (FailsLoudly(c, h) && c.blockingFailClosed))
  }

  /** What a result says about a handler that refuses, fails loudly or fails quietly. */
  ghost predicate Reflects(c: Config, reg: Registration, refuses: bool, loud: bool, quiet: bool, r: Result) {
    && (r.decisionEnforced <==> reg.blocking && c.blockingEnabled && (refuses || (loud && c.blockingFailClosed)))
    && r.handlerName == reg.name && r.blockingConfigured == reg.blocking
    && (r.blockingEffective <==> reg.blocking && c.blockingEnabled)
    && (!r.success <==> loud || quiet)
  }

  lemma KindReflects(c: Config, event: Event, reg: Registration, kind: Kind)
    requires IsInternal(reg.url)
    ensures Reflects(c, reg, KindRefuses(event, reg, kind), kind.TimeoutTest?, kind.FailTest? || kind.Unknown?,
                     RunKind(c, event, reg, kind, FreshResult(c, reg)))
  {
  }

  lemma HttpReflects(c: Config, h: Handler)
    ensures var error := HttpError(c, h.reply);
            Reflects(c, h.reg, error.None? && !h.reply.body.continues, error.Some?, false,
                     RunHttp(c, h.reply, FreshResult(c, h.reg)))
  {
  }

  /** A matching handler's result is enforced exactly if the handler blocks. */
  lemma EnforcedIffBlocks(c: Config, event: Event, h: Handler)
    ensures Reflects(c, h.reg, Refuses(c, event, h), FailsLoudly(c, h), FailsQuietly(h), Executed(c, event, h))
    ensures Matches(event, h.reg) ==> (Executed(c, event, h).decisionEnforced <==> Blocks(c, event, h))
  {
    if IsInternal(h.reg.url) {
      KindReflects(c, event, h.reg, KindOf(h.reg.url));
    } else if IsHttp(h.reg.url) {
      HttpReflects(c, h);
    }
  }

  ghost predicate FirstBlocker(c: Config, event: Event, handlers: seq<Handler>, i: nat) {
    && i < |handlers| && Blocks(c, event, handlers[i])
    && forall j :: 0 <= j < i ==> !Blocks(c, event, handlers[j])
  }

  /** `d` is the result of the first blocker, if there is one. */
  ghost predicate Names(c: Config, event: Event, handlers: seq<Handler>, d: Option<Result>) {
    match d
    case None => forall i :: 0 <= i < |handlers| ==> !Blocks(c, event, handlers[i])
    case Some(r) => exists i: nat :: FirstBlocker(c, event, handlers, i) && r == Executed(c, event, handlers[i])
  }

  lemma NamesOneMore(c: Config, event: Event, handlers: seq<Handler>, last: Handler, d: Option<Result>)
    requires Names(c, event, handlers, d)
    ensures Names(c, event, handlers + [last],
                  if d.None? && Blocks(c, event, last) then Some(Executed(c, event, last)) else d)
  {
    var more := handlers + [last];
    if d.Some? {
      var i: nat :| FirstBlocker(c, event, handlers, i) && d.value == Executed(c, event, handlers[i]);
      assert more[i] == handlers[i] && FirstBlocker(c, event, more, i);
    } else if Blocks(c, event, last) {
      assert more[|handlers|] == last && FirstBlocker(c, event, more, |handlers|);
    }
  }

  lemma {:induction false} EnforcedFirst(c: Config, event: Event, handlers: seq<Handler>)
    ensures Names(c, event, handlers, FirstEnforced(Results(c, event, handlers)))
  {
    if handlers != [] {
      var init, last := handlers[..|handlers| - 1], handlers[|handlers| - 1];
      var before := Results(c, event, init);
      assert handlers == init + [last];
      EnforcedFirst(c, event, init);
      NamesOneMore(c, event, init, last, FirstEnforced(before));
      EnforcedIffBlocks(c, event, last);
      if Matches(event, last.reg) {
        OneMoreResult(before, Executed(c, event, last));
      } else {
        assert before + [] == before;
      }
    }
  }

  /** What a blocking handler says the event was stopped for: its failure, or its refusal. */
  ghost predicate Gives(c: Config, event: Event, h: Handler, code: string, reason: string) {
    if FailsLoudly(c, h) then
      code == HANDLER_ERROR && reason == if IsInternal(h.reg.url) then TIMEOUT_ERROR else HttpError(c, h.reply).value
    else if IsInternal(h.reg.url) then
      if KindOf(h.reg.url).PermissionCheck?
      then code == PERMISSION_DENIED && reason == NotAllowedReason(ToolName(event))
      else code == POLICY_DENIED && reason == DENY_REASON
    else
      && h.reply.Replied? && h.reply.body.Parsed? && code != "" && reason == h.reply.body.rejectReason
      && (code == h.reply.body.rejectCode || (h.reply.body.rejectCode == "" && code == POLICY_DENIED))
  }

  lemma BlockerGives(c: Config, event: Event, h: Handler)
    requires Blocks(c, event, h)
    ensures Gives(c, event, h, Executed(c, event, h).rejectCode, Executed(c, event, h).rejectReason)
  {
  }

  ghost predicate Blames(c: Config, event: Event, d: Decision, h: Handler) {
    d.deniedByHandler == h.reg.name && Gives(c, event, h, d.rejectCode, d.rejectReason)
  }

  /** Verdict exactness: the event is denied exactly if hooks are enabled, no recursion guard
      fires, the registrations could be listed, and some registration blocks; the first one that
      does is named, with the code and reason it gives. */
  lemma DeniedExactly(c: Config, event: Event, listed: Option<seq<Handler>>, listError: string)
    ensures var d := Emitted(c, event, listed, listError);
            && (d.denied <==>
                  (c.hooksEnabled && !Recursive(event) && listed.Some? &&
                   exists i :: 0 <= i < |listed.value| && Blocks(c, event, listed.value[i])))
            && d.canContinue == !d.denied
            && (d.denied ==>
                  exists i: nat :: FirstBlocker(c, event, listed.value, i) && Blames(c, event, d, listed.value[i]))
  {
    if listed.Some? {
      EnforcedFirst(c, event, listed.value);
      var first := FirstEnforced(Results(c, event, listed.value));
      if first.Some? {
        var k: nat :| FirstBlocker(c, event, listed.value, k) && first.value == Executed(c, event, listed.value[k]);
        EnforcedIffBlocks(c, event, listed.value[k]);
        BlockerGives(c, event, listed.value[k]);
      }
    }
  }

  /** Under fail-closed, a failing blocking handler stops the event exactly if its failure is a
      loud one: an unknown internal handler, the failing test handler and an unsupported URL
      scheme let the event through. */
  lemma FailClosedExactly(c: Config, event: Event, h: Handler)
    requires Matches(event, h.reg) && h.reg.blocking && c.hooksEnabled && c.blockingEnabled && c.blockingFailClosed
    requires !Recursive(event) && (FailsLoudly(c, h) || FailsQuietly(h))
    ensures !Executed(c, event, h).success
    ensures Emitted(c, event, Some([h]), "").denied <==> !FailsQuietly(h)
  {
    EnforcedIffBlocks(c, event, h);
    DeniedExactly(c, event, Some([h]), "");
    assert [h][0] == h;
  }

  /** A blocking registration with an unknown internal handler, under fail-closed: it fails, and
      the event goes through. */
  lemma UnknownHandlerLetsThrough(reply: Reply)
    ensures var c, event := Config(true, true, true, 1), Event("before_tool_call", false, 0, map[]);
            var h := Handler(Registration("guard", "internal:nope", true, map[]), reply);
            !Executed(c, event, h).success && !Emitted(c, event, Some([h]), "").denied
  {
    var c, event := Config(true, true, true, 1), Event("before_tool_call", false, 0, map[]);
    var h := Handler(Registration("guard", "internal:nope", true, map[]), reply);
    assert "internal:nope"[|INTERNAL_PREFIX|..] == "nope";
    FailClosedExactly(c, event, h);
  }

  // ---------- non-blocking registrations ----------

  function OnlyBlocking(handlers: seq<Handler>): seq<Handler> {
    if handlers == [] then []
    else
      var last := handlers[|handlers| - 1];
      OnlyBlocking(handlers[..|handlers| - 1]) + if last.reg.blocking then [last] else []
  }

  ghost predicate SameVerdict(all: seq<Result>, some: seq<Result>) {
    && FirstEnforced(some) == FirstEnforced(all)
    && AnyBlocking(some) == AnyBlocking(all) && AnyEffective(some) == AnyEffective(all)
  }

  lemma {:induction false} OneMoreResult(results: seq<Result>, r: Result)
    ensures FirstEnforced(results + [r]) ==
            if FirstEnforced(results).None? && r.decisionEnforced then Some(r) else FirstEnforced(results)
    ensures AnyBlocking(results + [r]) == (AnyBlocking(results) || r.blockingConfigured)
    ensures AnyEffective(results + [r]) == (AnyEffective(results) || r.blockingEffective)
  {
    var more := results + [r];
    assert more[..|results|] == results;
    assert forall x :: x in more <==> x in results || x == r;
  }

  /** Both lists take the same result, or only one of them takes one that decides nothing. */
  lemma SameVerdictGrows(all: seq<Result>, some: seq<Result>, r: Result)
    requires SameVerdict(all, some)
    ensures SameVerdict(all + [r], some + [r])
    ensures !r.decisionEnforced && !r.blockingConfigured && !r.blockingEffective ==> SameVerdict(all + [r], some)
  {
    OneMoreResult(all, r);
    OneMoreResult(some, r);
  }

  lemma NonBlockingDecidesNothing(c: Config, event: Event, h: Handler)
    requires !h.reg.blocking && Matches(event, h.reg)
    ensures var r := Executed(c, event, h); !r.decisionEnforced && !r.blockingConfigured && !r.blockingEffective
  {
    EnforcedIffBlocks(c, event, h);
  }

  lemma {:induction false} OneMoreHandler(c: Config, event: Event, handlers: seq<Handler>, h: Handler)
    ensures Results(c, event, handlers + [h]) ==
            if Matches(event, h.reg) then Results(c, event, handlers) + [Executed(c, event, h)]
            else Results(c, event, handlers)
  {
    assert (handlers + [h])[..|handlers|] == handlers;
  }

  lemma SameVerdictStep(c: Config, event: Event, handlers: seq<Handler>, some: seq<Handler>, h: Handler)
    requires SameVerdict(Results(c, event, handlers), Results(c, event, some))
    ensures SameVerdict(Results(c, event, handlers + [h]),
                        Results(c, event, if h.reg.blocking then some + [h] else some))
  {
    OneMoreHandler(c, event, handlers, h);
    OneMoreHandler(c, event, some, h);
    if Matches(event, h.reg) {
      SameVerdictGrows(Results(c, event, handlers), Results(c, event, some), Executed(c, event, h));
      if !h.reg.blocking {
        NonBlockingDecidesNothing(c, event, h);
      }
    }
  }

  lemma {:induction false} SameVerdictResults(c: Config, event: Event, handlers: seq<Handler>)
    ensures SameVerdict(Results(c, event, handlers), Results(c, event, OnlyBlocking(handlers)))
  {
    if handlers != [] {
      var init, last := handlers[..|handlers| - 1], handlers[|handlers| - 1];
      assert init + [last] == handlers;
      SameVerdictResults(c, event, init);
      assert OnlyBlocking(handlers) == if last.reg.blocking then OnlyBlocking(init) + [last] else OnlyBlocking(init);
      SameVerdictStep(c, event, init, OnlyBlocking(init), last);
    }
  }

  /** Deleting every non-blocking registration changes neither the verdict nor whom and what it
      names. */
  lemma {:induction false} NonBlockingDoNotMatter(c: Config, event: Event, handlers: seq<Handler>)
    ensures var a, b := Emitted(c, event, Some(handlers), ""), Emitted(c, event, Some(OnlyBlocking(handlers)), "");
            && a.denied == b.denied && a.canContinue == b.canContinue
            && a.deniedByHandler == b.deniedByHandler && a.rejectCode == b.rejectCode
            && a.rejectReason == b.rejectReason
            && a.hasBlockingHooks == b.hasBlockingHooks && a.hasEffectiveBlocking == b.hasEffectiveBlocking
  {
    SameVerdictResults(c, event, handlers);
  }
}
