/**
  The runtime configuration: a YAML file, built-in defaults, the dashboard's system configuration and
  environment variables, merged in place section by section.
 */
module LayeredConfig {
  import opened Outcomes
  import opened Json
  import Text
  import TextLines
  import CookieMerge

  /** Number parsing and value printing, as Python does them. */
  datatype Convert = Convert(toInt: string -> Option<int>, toFloat: string -> Option<real>, shown: Value -> string)

  type Vars = map<string, string>

  datatype Error =
    | InvalidYaml
    | DotenvDenied
    | DotenvUndecodable
    | UnreadableSystemFile
    | BadNumber
    | NotADictionary(section: string)

  // ---- references to environment variables ----

  predicate IsReference(s: string) {
    |s| >= 3 && s[..2] == "${" && s[|s| - 1] == '}'
  }

  /** `${NAME}` replaced by the variable, at any depth; an unset variable leaves the text. */
  function Resolve(vars: Vars, v: Value): Value {
    match v
    case Dict(fields) => Dict(map k | k in fields :: Resolve(vars, fields[k]))
    case List(items) => List(seq(|items|, i requires 0 <= i < |items| => Resolve(vars, items[i])))
    case Str(s) =>
      if IsReference(s) && s[2..|s| - 1] in vars then Str(vars[s[2..|s| - 1]]) else v
    case _ => v
  }

  /** No text in the value refers to a variable. */
  predicate Plain(v: Value) {
    match v
    case Dict(fields) => forall k :: k in fields ==> Plain(fields[k])
    case List(items) => forall i :: 0 <= i < |items| ==> Plain(items[i])
    case Str(s) => !IsReference(s)
    case _ => true
  }

  lemma {:induction false} ResolvePlain(vars: Vars, v: Value)
    requires Plain(v)
    ensures Resolve(vars, v) == v
  {
    match v {
      case Dict(fields) =>
        forall k | k in fields ensures Resolve(vars, fields[k]) == fields[k] {
          ResolvePlain(vars, fields[k]);
        }
        assert (map k | k in fields :: Resolve(vars, fields[k])) == fields;
      case List(items) =>
        forall i | 0 <= i < |items| ensures Resolve(vars, items[i]) == items[i] {
          ResolvePlain(vars, items[i]);
        }
      case _ =>
    }
  }

  /** References that can be resolved in turn resolve to text that is left as it is: a second pass changes nothing. */
  predicate PlainVars(vars: Vars) {
    forall x :: x in vars ==> !IsReference(vars[x])
  }

  lemma {:induction false} ResolveTwice(vars: Vars, v: Value)
    requires PlainVars(vars)
    ensures Resolve(vars, Resolve(vars, v)) == Resolve(vars, v)
  {
    match v {
      case Dict(fields) =>
        var once := Resolve(vars, v).fields;
        forall k | k in fields ensures Resolve(vars, once[k]) == once[k] {
          ResolveTwice(vars, fields[k]);
        }
        assert (map k | k in once :: Resolve(vars, once[k])) == once;
      case List(items) =>
        var once := Resolve(vars, v).items;
        forall i | 0 <= i < |items| ensures Resolve(vars, once[i]) == once[i] {
          ResolveTwice(vars, items[i]);
        }
      case _ =>
    }
  }

  function ResolveConfig(vars: Vars, cfg: Config): Config {
    map s | s in cfg :: Resolve(vars, cfg[s])
  }

  // ---- the merges ----

  /** The sections and settings of the defaults that are missing. */
  function WithDefaults(cfg: Config, defaults: Config): Config {
    map s | s in cfg.Keys + defaults.Keys ::
      if s !in cfg then defaults[s]
      else if s in defaults && defaults[s].Dict? && cfg[s].Dict? then Dict(defaults[s].fields + cfg[s].fields)
      else cfg[s]
  }

  /** `setdefault(s, {})`, updated if it is a dictionary. */
  function Put(cfg: Config, s: string, fields: map<string, Value>): Config {
    if s !in cfg then cfg[s := Dict(fields)]
    else if cfg[s].Dict? then cfg[s := Dict(cfg[s].fields + fields)]
    else cfg
  }

  const SHARED: seq<string> := ["ai", "pricing", "delivery", "store"]

  datatype ReplyField = ReplyField(source: string, target: string)

  /** The automatic-reply settings and the message settings that they become. */
  const REPLY_FIELDS: seq<ReplyField> := [
    ReplyField("default_reply", "default_reply"),
    ReplyField("virtual_default_reply", "virtual_default_reply"),
    ReplyField("enabled", "enabled"),
    ReplyField("ai_intent_enabled", "ai_intent_enabled"),
    ReplyField("quote_missing_template", "quote_missing_template"),
    ReplyField("strict_format_reply_enabled", "strict_format_reply_enabled"),
    ReplyField("force_non_empty_reply", "force_non_empty_reply"),
    ReplyField("non_empty_reply_fallback", "non_empty_reply_fallback"),
    ReplyField("quote_failed_template", "quote_failed_template"),
    ReplyField("quote_reply_max_couriers", "quote_reply_max_couriers"),
    ReplyField("first_reply_delay", "first_reply_delay_seconds"),
    ReplyField("inter_reply_delay", "inter_reply_delay_seconds")
  ]

  const RULE_KEYS: set<string> := {
    "name", "keywords", "reply", "patterns", "priority", "categories", "needs_human", "human_reason", "phase",
    "skip_reply"
  }

  /** A delay range written as two numbers with a dash between them. */
  function ReplyValue(conv: Convert, source: string, v: Value): Value {
    if source in {"first_reply_delay", "inter_reply_delay"} && v.Str? && '-' in v.s then
      var at := Text.IndexOf(v.s, '-');
      var lo, hi := conv.toFloat(Text.Strip(v.s[..at])), conv.toFloat(Text.Strip(v.s[at + 1..]));
      if lo.Some? && hi.Some? then List([Num(lo.value), Num(hi.value)]) else v
    else v
  }

  /** The reply of one line `keyword=reply`, if both parts are there. */
  function KeywordReply(line: string): Option<(string, string)> {
    var pair := CookieMerge.Pair(line);
    if pair.Some? && pair.value.0 != "" && pair.value.1 != "" then pair else None
  }

  function KeywordReplies(lines: seq<string>): map<string, Value> {
    if lines == [] then map[]
    else
      var before, last := KeywordReplies(lines[..|lines| - 1]), KeywordReply(lines[|lines| - 1]);
      if last.Some? then before[last.value.0 := Str(last.value.1)] else before
  }

  function RuleKept(rule: Value): Value
    requires rule.Dict?
  {
    Dict(map k | k in rule.fields && k in RULE_KEYS :: rule.fields[k])
  }

  predicate Named(rule: Value) {
    rule.Dict? && "name" in rule.fields && Truthy(rule.fields["name"])
  }

  function RulesKept(rules: seq<Value>): seq<Value> {
    if rules == [] then []
    else
      (if Named(rules[0]) then [RuleKept(rules[0])] else []) + RulesKept(rules[1..])
  }

  function MappedFields(conv: Convert, ar: map<string, Value>, rows: seq<ReplyField>): map<string, Value> {
    if rows == [] then map[]
    else
      var before, row := MappedFields(conv, ar, rows[..|rows| - 1]), rows[|rows| - 1];
      if row.source in ar then before[row.target := ReplyValue(conv, row.source, ar[row.source])] else before
  }

  function KeywordFields(ar: map<string, Value>): map<string, Value> {
    if "keyword_replies_text" in ar && ar["keyword_replies_text"].Str? then
      var replies := KeywordReplies(TextLines.SplitLines(Text.Strip(ar["keyword_replies_text"].s)));
      if replies != map[] then map["keyword_replies" := Dict(replies)] else map[]
    else map[]
  }

  function RuleFields(ar: map<string, Value>): map<string, Value> {
    if "custom_intent_rules" in ar && ar["custom_intent_rules"].List? then
      map["intent_rules" := List(RulesKept(ar["custom_intent_rules"].items))]
    else map[]
  }

  /** The message settings that the automatic-reply section sets. */
  function ReplyFields(conv: Convert, ar: map<string, Value>): map<string, Value> {
    MappedFields(conv, ar, REPLY_FIELDS) + KeywordFields(ar) + RuleFields(ar)
  }

  /** Python's `int` of a value. */
  function ToInt(conv: Convert, v: Value): Option<int> {
    match v
    case Bool(b) => Some(if b then 1 else 0)
    case Num(n) => Some(if n >= 0.0 then n.Floor else -((-n).Floor))
    case Str(s) => conv.toInt(s)
    case _ => None
  }

  function FieldOr(fields: map<string, Value>, key: string, default: Value): Value {
    if key in fields then fields[key] else default
  }

  function ToText(conv: Convert, v: Value): string {
    if v.Str? then v.s else conv.shown(v)
  }

  /** The slider settings as the runtime wants them; a number that cannot be read fails the load. */
  function SliderSettings(conv: Convert, slider: map<string, Value>): Result<Value, Error> {
    var attempts := ToInt(conv, FieldOr(slider, "max_attempts", Num(2.0)));
    var cooldown := ToInt(conv, FieldOr(slider, "cooldown_seconds", Num(300.0)));
    if attempts.None? || cooldown.None? then Failure(BadNumber)
    else
      var settings := map[
        "enabled" := Bool(Truthy(FieldOr(slider, "enabled", Bool(false)))),
        "max_attempts" := Num(attempts.value as real),
        "cooldown_seconds" := Num(cooldown.value as real),
        "headless" := Bool(Truthy(FieldOr(slider, "headless", Bool(false))))];
      if "fingerprint_browser" in slider && slider["fingerprint_browser"].Dict? then
        var fp := slider["fingerprint_browser"].fields;
        Success(Dict(settings["fingerprint_browser" := Dict(map[
          "enabled" := Bool(Truthy(FieldOr(fp, "enabled", Bool(false)))),
          "api_url" := Str(ToText(conv, FieldOr(fp, "api_url", Str("http://127.0.0.1:54345")))),
          "browser_id" := Str(ToText(conv, FieldOr(fp, "browser_id", Str(""))))])]))
      else Success(Dict(settings))
  }

  function PutSlider(conv: Convert, cfg: Config, slider: map<string, Value>): Result<Config, Error> {
    var cfg1 := Put(cfg, "messages", map[]);
    if !cfg1["messages"].Dict? then Success(cfg1)
    else
      var msgs := cfg1["messages"].fields;
      var ws := FieldOr(msgs, "ws", Dict(map[]));
      if !ws.Dict? then Success(cfg1)
      else
        match SliderSettings(conv, slider)
        case Failure(e) => Failure(e)
        case Success(settings) =>
          Success(cfg1["messages" := Dict(msgs["ws" := Dict(ws.fields["slider_auto_solve" := settings])])])
  }

  function PutShared(cfg: Config, sys: Config, names: seq<string>): Config {
    if names == [] then cfg
    else
      var before, s := PutShared(cfg, sys, names[..|names| - 1]), names[|names| - 1];
      if s in sys && sys[s].Dict? then Put(before, s, sys[s].fields) else before
  }

  /** The shared sections, the cookie service and the message settings of the dashboard, in this order. */
  function Replied(conv: Convert, cfg: Config, sys: Config): Config {
    var clouded := PutShared(PutShared(cfg, sys, SHARED), sys, ["cookie_cloud"]);
    if "auto_reply" in sys && sys["auto_reply"].Dict?
    then Put(clouded, "messages", ReplyFields(conv, sys["auto_reply"].fields)) else clouded
  }

  /** The dashboard has cookie service settings and their section cannot take them. */
  predicate BadCloud(cfg: Config, sys: Config) {
    "cookie_cloud" in sys && sys["cookie_cloud"].Dict? && "cookie_cloud" in cfg && !cfg["cookie_cloud"].Dict?
  }

  /**
    The dashboard's file: skipped when it is missing, cannot be opened or is no JSON; an error that the
    load does not handle, as for bytes that are no UTF-8; or its content.
   */
  datatype SystemFile = Skipped | Raises | Content(value: Value)

  predicate Usable(system: SystemFile) {
    system.Content? && system.value.Dict?
  }

  /** The configuration with the dashboard's settings over it. */
  function MergeSystem(conv: Convert, cfg: Config, system: SystemFile): Result<Config, Error> {
    if system.Raises? then Failure(UnreadableSystemFile)
    else if !Usable(system) then Success(cfg)
    else
      var sys := system.value.fields;
      if BadCloud(PutShared(cfg, sys, SHARED), sys) then Failure(NotADictionary("cookie_cloud"))
      else if "slider_auto_solve" in sys && sys["slider_auto_solve"].Dict?
      then PutSlider(conv, Replied(conv, cfg, sys), sys["slider_auto_solve"].fields)
      else Success(Replied(conv, cfg, sys))
  }

  // ---- environment overrides ----

  datatype Kind = AsText | AsBool | AsInt | AsFloat

  datatype Override = Override(section: string, key: string, variable: string, kind: Kind)

  const OVERRIDES: seq<Override> := [
    Override("app", "runtime", "APP_RUNTIME", AsText),
    Override("ai", "provider", "AI_PROVIDER", AsText),
    Override("ai", "api_key", "AI_API_KEY", AsText),
    Override("ai", "base_url", "AI_BASE_URL", AsText),
    Override("ai", "model", "AI_MODEL", AsText),
    Override("ai", "temperature", "AI_TEMPERATURE", AsFloat),
    Override("messages", "enabled", "MESSAGES_ENABLED", AsBool),
    Override("messages", "transport", "MESSAGES_TRANSPORT", AsText),
    Override("messages", "default_reply", "MESSAGES_DEFAULT_REPLY", AsText),
    Override("messages", "virtual_default_reply", "MESSAGES_VIRTUAL_DEFAULT_REPLY", AsText),
    Override("messages", "max_replies_per_run", "MESSAGES_MAX_REPLIES_PER_RUN", AsInt)
  ]

  function ParseValue(conv: Convert, raw: string, kind: Kind): Option<Value> {
    match kind
    case AsText => Some(Str(raw))
    case AsBool => Some(Bool(Text.Lower(Text.Strip(raw)) in {"1", "true", "yes", "on", "enabled"}))
    case AsInt =>
      var n := conv.toInt(Text.Strip(raw));
      if n.Some? then Some(Num(n.value as real)) else None
    case AsFloat =>
      var n := conv.toFloat(Text.Strip(raw));
      if n.Some? then Some(Num(n.value)) else None
  }

  /** What the variable of a row sets: nothing if it is unset, empty or not parseable. */
  function OverrideValue(conv: Convert, vars: Vars, row: Override): Option<Value> {
    if row.variable in vars && vars[row.variable] != "" then ParseValue(conv, vars[row.variable], row.kind) else None
  }

  /** A section that is not a dictionary is replaced by one. */
  function PutSetting(cfg: Config, s: string, key: string, v: Value): Config {
    cfg[s := Dict(Fields(cfg, s)[key := v])]
  }

  function Overridden(conv: Convert, vars: Vars, cfg: Config, rows: seq<Override>): Config {
    if rows == [] then cfg
    else
      var before, row := Overridden(conv, vars, cfg, rows[..|rows| - 1]), rows[|rows| - 1];
      var v := OverrideValue(conv, vars, row);
      if v.Some? then PutSetting(before, row.section, row.key, v.value) else before
  }

  // ---- loading ----

  /** The `.env` file cannot be opened, or not be decoded. */
  datatype DotenvError = Denied | Undecodable

  function OfDotenv(e: DotenvError): Error {
    if e.Denied? then DotenvDenied else DotenvUndecodable
  }

  /**
    Everything a load reads; `yaml` is the validated file, or the error of reading or validating it.
    `dotenv` is the error of reading the `.env` file, if any, and `vars` are the variables with that file.
   */
  datatype Sources = Sources(fileExists: bool, yaml: Result<Config, Error>, dotenv: Option<DotenvError>, vars: Vars,
                             system: SystemFile, defaults: Config)

  function Base(src: Sources): Config
    requires src.fileExists ==> src.yaml.Success?
  {
    if src.fileExists then WithDefaults(ResolveConfig(src.vars, src.yaml.value), src.defaults)
    else ResolveConfig(src.vars, WithDefaults(map[], src.defaults))
  }

  function Loaded(conv: Convert, src: Sources): Result<Config, Error> {
    if src.fileExists && src.yaml.Failure? then Failure(src.yaml.error)
    else if src.fileExists && src.dotenv.Some? then Failure(OfDotenv(src.dotenv.value))
    else
      match MergeSystem(conv, Base(src), src.system)
      case Failure(e) => Failure(e)
      case Success(cfg) => Success(Overridden(conv, src.vars, cfg, OVERRIDES))
  }
}
