/** What a load makes of single settings, by name and by value. */
module ConfigSettings {
  import opened Outcomes
  import opened Json
  import opened LayeredConfig
  import opened ConfigPrecedence
  import Text
  import TextLines
  import CookieMerge

  // ---- references to variables ----

  lemma ReferenceIsIts(name: string)
    ensures IsReference("${" + name + "}") && ("${" + name + "}")[2..|"${" + name + "}"| - 1] == name
  {
    var s := "${" + name + "}";
    assert s == "${" + (name + "}");
    assert s[..2] == "${" && s[2..] == name + "}";
    assert s[2..|s| - 1] == name;
  }

  /** A reference to a set variable becomes its value; one to an unset variable stays. */
  lemma ReferenceResolves(vars: Vars, name: string)
    ensures name in vars ==> Resolve(vars, Str("${" + name + "}")) == Str(vars[name])
    ensures name !in vars ==> Resolve(vars, Str("${" + name + "}")) == Str("${" + name + "}")
  {
    ReferenceIsIts(name);
  }

  /** Text of any other form stays. */
  lemma OtherTextStays(vars: Vars, s: string)
    requires |s| < 3 || s[0] != '$' || s[1] != '{' || s[|s| - 1] != '}'
    ensures Resolve(vars, Str(s)) == Str(s)
  {
    if |s| >= 3 {
      assert s[..2] == [s[0], s[1]];
    }
  }

  datatype Step = Key(k: string) | Index(i: nat)

  /** The value that a path of keys and positions leads to. */
  function ValueAt(v: Value, path: seq<Step>): Option<Value> {
    if path == [] then Some(v)
    else
      match path[0]
      case Key(k) => if v.Dict? && k in v.fields then ValueAt(v.fields[k], path[1..]) else None
      case Index(i) => if v.List? && i < |v.items| then ValueAt(v.items[i], path[1..]) else None
  }

  /** The value at any path of the result is the resolution of the value at that path, and there are no other paths. */
  lemma {:induction false} ResolvedAt(vars: Vars, v: Value, path: seq<Step>)
    ensures ValueAt(Resolve(vars, v), path).Some? <==> ValueAt(v, path).Some?
    ensures ValueAt(v, path).Some? ==>
              ValueAt(Resolve(vars, v), path) == Some(Resolve(vars, ValueAt(v, path).value))
  {
    if path != [] {
      match path[0]
      case Key(k) =>
        if v.Dict? && k in v.fields {
          ResolvedAt(vars, v.fields[k], path[1..]);
        }
      case Index(i) =>
        if v.List? && i < |v.items| {
          ResolvedAt(vars, v.items[i], path[1..]);
        }
    }
  }

  /** A reference at any depth becomes the variable's value. */
  lemma ReferenceAtPath(vars: Vars, v: Value, path: seq<Step>, name: string)
    requires ValueAt(v, path) == Some(Str("${" + name + "}")) && name in vars
    ensures ValueAt(Resolve(vars, v), path) == Some(Str(vars[name]))
  {
    ResolvedAt(vars, v, path);
    ReferenceResolves(vars, name);
  }

  // ---- the layers above and below ----

  /** No variable of the table is set for the setting. */
  predicate EnvSilent(vars: Vars, s: string, k: string) {
    forall i :: 0 <= i < |OVERRIDES| && OVERRIDES[i].section == s && OVERRIDES[i].key == k ==>
      OVERRIDES[i].variable !in vars || vars[OVERRIDES[i].variable] == ""
  }

  lemma {:induction false} SilentRows(conv: Convert, vars: Vars, rows: seq<Override>, s: string, k: string)
    requires forall i :: 0 <= i < |rows| && rows[i].section == s && rows[i].key == k ==>
      rows[i].variable !in vars || vars[rows[i].variable] == ""
    ensures EnvSetting(conv, vars, rows, s, k) == None
  {
    if rows != [] {
      var front := rows[..|rows| - 1];
      assert forall i :: 0 <= i < |front| ==> front[i] == rows[i];
      assert rows[|rows| - 1] == rows[|rows| - 1];
      SilentRows(conv, vars, front, s, k);
    }
  }

  /** The load succeeds, and settings can be merged into the section at every layer. */
  predicate Loads(conv: Convert, src: Sources, s: string) {
    && Loaded(conv, src).Success?
    && (src.fileExists ==> Open(src.yaml.value, s))
    && PlainConfig(src.defaults) && Open(src.defaults, s)
  }

  /** The dashboard's file has nothing for the setting. */
  predicate DashboardSilent(system: SystemFile, s: string, k: string) {
    system.Content? && system.value.Dict? ==>
      var sys := system.value.fields;
      && (s in sys && sys[s].Dict? ==> k !in sys[s].fields)
      && (s == "messages" && "auto_reply" in sys ==> !sys["auto_reply"].Dict?)
  }

  lemma LowerLayers(conv: Convert, src: Sources, s: string, k: string)
    requires Loads(conv, src, s) && EnvSilent(src.vars, s, k) && DashboardSilent(src.system, s, k)
    requires (s, k) != ("messages", "ws")
    ensures Lookup(Loaded(conv, src).value, s, k) == OrElse(FileSetting(src, s, k), Lookup(src.defaults, s, k))
  {
    Precedence(conv, src, s, k);
    SilentRows(conv, src.vars, OVERRIDES, s, k);
  }

  /** A setting of the file that refers to a set variable is its value, unless a higher layer sets it. */
  lemma ReferenceIsLoaded(conv: Convert, src: Sources, s: string, k: string, name: string)
    requires Loads(conv, src, s) && EnvSilent(src.vars, s, k) && DashboardSilent(src.system, s, k)
    requires (s, k) != ("messages", "ws")
    requires src.fileExists && Lookup(src.yaml.value, s, k) == Some(Str("${" + name + "}")) && name in src.vars
    ensures Lookup(Loaded(conv, src).value, s, k) == Some(Str(src.vars[name]))
  {
    LowerLayers(conv, src, s, k);
    ReferenceResolves(src.vars, name);
  }

  /** The same for a reference inside a setting. */
  lemma InnerReferenceIsLoaded(conv: Convert, src: Sources, s: string, k: string, path: seq<Step>, name: string)
    requires Loads(conv, src, s) && EnvSilent(src.vars, s, k) && DashboardSilent(src.system, s, k)
    requires (s, k) != ("messages", "ws")
    requires src.fileExists && Lookup(src.yaml.value, s, k).Some? && name in src.vars
    requires ValueAt(Lookup(src.yaml.value, s, k).value, path) == Some(Str("${" + name + "}"))
    ensures var now := Lookup(Loaded(conv, src).value, s, k);
            now.Some? && ValueAt(now.value, path) == Some(Str(src.vars[name]))
  {
    LowerLayers(conv, src, s, k);
    ReferenceAtPath(src.vars, Lookup(src.yaml.value, s, k).value, path, name);
  }

  /** A setting of the file without references is loaded as it is, and a missing one gets its default. */
  lemma FileOrDefaultIsLoaded(conv: Convert, src: Sources, s: string, k: string)
    requires Loads(conv, src, s) && EnvSilent(src.vars, s, k) && DashboardSilent(src.system, s, k)
    requires (s, k) != ("messages", "ws")
    ensures var now := Lookup(Loaded(conv, src).value, s, k);
            var file := if src.fileExists then Lookup(src.yaml.value, s, k) else None;
            && (file.Some? && Plain(file.value) ==> now == file)
            && (file.None? ==> now == Lookup(src.defaults, s, k))
  {
    LowerLayers(conv, src, s, k);
    if src.fileExists && Lookup(src.yaml.value, s, k).Some? && Plain(Lookup(src.yaml.value, s, k).value) {
      ResolvePlain(src.vars, Lookup(src.yaml.value, s, k).value);
    }
  }

  // ---- the environment ----

  /** The setting is the text of the variable if that is set and not empty, and what it was otherwise. */
  predicate TextFrom(vars: Vars, variable: string, before: Config, after: Config, s: string, k: string) {
    if variable in vars && vars[variable] != "" then Lookup(after, s, k) == Some(Str(vars[variable]))
    else Lookup(after, s, k) == Lookup(before, s, k)
  }

  lemma RowDecides(conv: Convert, vars: Vars, cfg: Config, i: nat)
    requires i < |OVERRIDES|
    ensures Lookup(Overridden(conv, vars, cfg, OVERRIDES), OVERRIDES[i].section, OVERRIDES[i].key)
            == OrElse(OverrideValue(conv, vars, OVERRIDES[i]), Lookup(cfg, OVERRIDES[i].section, OVERRIDES[i].key))
  {
    OverriddenLookup(conv, vars, cfg, OVERRIDES, OVERRIDES[i].section, OVERRIDES[i].key);
    EnvRows(conv, vars);
  }

  lemma AppAndAiVariables(conv: Convert, vars: Vars, cfg: Config)
    ensures var now := Overridden(conv, vars, cfg, OVERRIDES);
            && TextFrom(vars, "APP_RUNTIME", cfg, now, "app", "runtime")
            && TextFrom(vars, "AI_PROVIDER", cfg, now, "ai", "provider")
            && TextFrom(vars, "AI_API_KEY", cfg, now, "ai", "api_key")
            && TextFrom(vars, "AI_BASE_URL", cfg, now, "ai", "base_url")
            && TextFrom(vars, "AI_MODEL", cfg, now, "ai", "model")
  {
    RowDecides(conv, vars, cfg, 0);
    RowDecides(conv, vars, cfg, 1);
    RowDecides(conv, vars, cfg, 2);
    RowDecides(conv, vars, cfg, 3);
    RowDecides(conv, vars, cfg, 4);
  }

  lemma MessageVariables(conv: Convert, vars: Vars, cfg: Config)
    ensures var now := Overridden(conv, vars, cfg, OVERRIDES);
            && TextFrom(vars, "MESSAGES_TRANSPORT", cfg, now, "messages", "transport")
            && TextFrom(vars, "MESSAGES_DEFAULT_REPLY", cfg, now, "messages", "default_reply")
            && TextFrom(vars, "MESSAGES_VIRTUAL_DEFAULT_REPLY", cfg, now, "messages", "virtual_default_reply")
  {
    RowDecides(conv, vars, cfg, 7);
    RowDecides(conv, vars, cfg, 8);
    RowDecides(conv, vars, cfg, 9);
  }

  /** The switch is on exactly for five words, in any case and with blanks around them. */
  lemma EnabledVariable(conv: Convert, vars: Vars, cfg: Config)
    requires "MESSAGES_ENABLED" in vars && vars["MESSAGES_ENABLED"] != ""
    ensures var word := Text.Lower(Text.Strip(vars["MESSAGES_ENABLED"]));
            Lookup(Overridden(conv, vars, cfg, OVERRIDES), "messages", "enabled")
            == Some(Bool(word == "1" || word == "true" || word == "yes" || word == "on" || word == "enabled"))
  {
    RowDecides(conv, vars, cfg, 6);
  }

  /** Numbers that can be read replace the setting, others leave it. */
  lemma NumberVariables(conv: Convert, vars: Vars, cfg: Config)
    ensures "AI_TEMPERATURE" in vars && vars["AI_TEMPERATURE"] != "" ==>
              var n := conv.toFloat(Text.Strip(vars["AI_TEMPERATURE"]));
              Lookup(Overridden(conv, vars, cfg, OVERRIDES), "ai", "temperature")
              == if n.Some? then Some(Num(n.value)) else Lookup(cfg, "ai", "temperature")
    ensures "MESSAGES_MAX_REPLIES_PER_RUN" in vars && vars["MESSAGES_MAX_REPLIES_PER_RUN"] != "" ==>
              var n := conv.toInt(Text.Strip(vars["MESSAGES_MAX_REPLIES_PER_RUN"]));
              Lookup(Overridden(conv, vars, cfg, OVERRIDES), "messages", "max_replies_per_run")
              == if n.Some? then Some(Num(n.value as real)) else Lookup(cfg, "messages", "max_replies_per_run")
  {
    RowDecides(conv, vars, cfg, 5);
    RowDecides(conv, vars, cfg, 10);
  }

  /** The table has no other settings. */
  lemma OtherSettingsStay(conv: Convert, vars: Vars, cfg: Config, s: string, k: string)
    requires s == "app" ==> k != "runtime"
    requires s == "ai" ==> k !in {"provider", "api_key", "base_url", "model", "temperature"}
    requires s == "messages" ==>
      k !in {"enabled", "transport", "default_reply", "virtual_default_reply", "max_replies_per_run"}
    ensures Lookup(Overridden(conv, vars, cfg, OVERRIDES), s, k) == Lookup(cfg, s, k)
  {
    OverriddenLookup(conv, vars, cfg, OVERRIDES, s, k);
    NoRow(conv, vars, OVERRIDES, s, k);
  }

  /** In a load the text variables win over every file, whatever the files hold. */
  lemma TextVariablesAreLoaded(conv: Convert, src: Sources)
    requires Loaded(conv, src).Success?
    ensures "APP_RUNTIME" in src.vars && src.vars["APP_RUNTIME"] != "" ==>
              Lookup(Loaded(conv, src).value, "app", "runtime") == Some(Str(src.vars["APP_RUNTIME"]))
    ensures "AI_API_KEY" in src.vars && src.vars["AI_API_KEY"] != "" ==>
              Lookup(Loaded(conv, src).value, "ai", "api_key") == Some(Str(src.vars["AI_API_KEY"]))
    ensures "AI_MODEL" in src.vars && src.vars["AI_MODEL"] != "" ==>
              Lookup(Loaded(conv, src).value, "ai", "model") == Some(Str(src.vars["AI_MODEL"]))
    ensures "MESSAGES_TRANSPORT" in src.vars && src.vars["MESSAGES_TRANSPORT"] != "" ==>
              Lookup(Loaded(conv, src).value, "messages", "transport") == Some(Str(src.vars["MESSAGES_TRANSPORT"]))
  {
    var merged := MergeSystem(conv, Base(src), src.system).value;
    AppAndAiVariables(conv, src.vars, merged);
    MessageVariables(conv, src.vars, merged);
  }

  // ---- the dashboard ----

  /** A setting of a shared section or of the cookie service wins over file and default. */
  lemma DashboardSettingIsLoaded(conv: Convert, src: Sources, s: string, k: string)
    requires Loads(conv, src, s) && EnvSilent(src.vars, s, k)
    requires s == "ai" || s == "pricing" || s == "delivery" || s == "store" || s == "cookie_cloud"
    requires src.system.Content? && src.system.value.Dict? && Lookup(src.system.value.fields, s, k).Some?
    ensures Lookup(Loaded(conv, src).value, s, k) == Lookup(src.system.value.fields, s, k)
  {
    assert SHARED == ["ai", "pricing", "delivery", "store"];
    assert SHARED[0] == "ai" && SHARED[1] == "pricing" && SHARED[2] == "delivery" && SHARED[3] == "store";
    Precedence(conv, src, s, k);
    SilentRows(conv, src.vars, OVERRIDES, s, k);
  }

  /** The dashboard has automatic-reply settings. */
  predicate HasReply(system: SystemFile) {
    && system.Content? && system.value.Dict?
    && "auto_reply" in system.value.fields && system.value.fields["auto_reply"].Dict?
  }

  lemma ReplyLayer(conv: Convert, system: SystemFile, k: string)
    requires HasReply(system)
    ensures SystemSetting(conv, system, "messages", k)
            == At(ReplyFields(conv, system.value.fields["auto_reply"].fields), k)
  {
  }

  lemma ReplyIsLoaded(conv: Convert, src: Sources, k: string)
    requires Loads(conv, src, "messages") && EnvSilent(src.vars, "messages", k) && HasReply(src.system)
    requires k != "ws" && k in ReplyFields(conv, src.system.value.fields["auto_reply"].fields)
    ensures Lookup(Loaded(conv, src).value, "messages", k)
            == Some(ReplyFields(conv, src.system.value.fields["auto_reply"].fields)[k])
  {
    Precedence(conv, src, "messages", k);
    SilentRows(conv, src.vars, OVERRIDES, "messages", k);
    ReplyLayer(conv, src.system, k);
  }

  /** Ten automatic-reply settings become message settings of the same name. */
  lemma SameNameIsLoaded(conv: Convert, src: Sources, k: string)
    requires Loads(conv, src, "messages") && EnvSilent(src.vars, "messages", k) && HasReply(src.system)
    requires k in {"default_reply", "virtual_default_reply", "enabled", "ai_intent_enabled", "quote_missing_template",
                   "strict_format_reply_enabled", "force_non_empty_reply", "non_empty_reply_fallback",
                   "quote_failed_template", "quote_reply_max_couriers"}
    requires k in src.system.value.fields["auto_reply"].fields
    ensures Lookup(Loaded(conv, src).value, "messages", k) == Some(src.system.value.fields["auto_reply"].fields[k])
  {
    var ar := src.system.value.fields["auto_reply"].fields;
    SameName(conv, ar, k);
    ReplyIsLoaded(conv, src, k);
  }

  lemma SameName(conv: Convert, ar: map<string, Value>, k: string)
    requires k in {"default_reply", "virtual_default_reply", "enabled", "ai_intent_enabled", "quote_missing_template",
                   "strict_format_reply_enabled", "force_non_empty_reply", "non_empty_reply_fallback",
                   "quote_failed_template", "quote_reply_max_couriers"}
    ensures k in ReplyFields(conv, ar) <==> k in ar
    ensures k in ar ==> ReplyFields(conv, ar)[k] == ar[k]
  {
    TargetRow(conv, ar, RowOf(k));
  }

  function RowOf(k: string): (i: nat)
    requires k in {"default_reply", "virtual_default_reply", "enabled", "ai_intent_enabled", "quote_missing_template",
                   "strict_format_reply_enabled", "force_non_empty_reply", "non_empty_reply_fallback",
                   "quote_failed_template", "quote_reply_max_couriers"}
    ensures i < 10 && REPLY_FIELDS[i].source == k && REPLY_FIELDS[i].target == k
  {
    if k == "default_reply" then 0
    else if k == "virtual_default_reply" then 1
    else if k == "enabled" then 2
    else if k == "ai_intent_enabled" then 3
    else if k == "quote_missing_template" then 4
    else if k == "strict_format_reply_enabled" then 5
    else if k == "force_non_empty_reply" then 6
    else if k == "non_empty_reply_fallback" then 7
    else if k == "quote_failed_template" then 8
    else 9
  }

  lemma DelayNames()
    ensures REPLY_FIELDS[10] == ReplyField("first_reply_delay", "first_reply_delay" + "_seconds")
    ensures REPLY_FIELDS[11] == ReplyField("inter_reply_delay", "inter_reply_delay" + "_seconds")
  {
  }

  /** The two delays, under their longer names. */
  lemma DelayRow(conv: Convert, ar: map<string, Value>, source: string)
    requires source == "first_reply_delay" || source == "inter_reply_delay"
    requires source in ar
    ensures source + "_seconds" in ReplyFields(conv, ar)
    ensures ReplyFields(conv, ar)[source + "_seconds"] == ReplyValue(conv, source, ar[source])
  {
    DelayNames();
    if source == "first_reply_delay" {
      TargetRow(conv, ar, 10);
    } else {
      TargetRow(conv, ar, 11);
    }
  }

  lemma TargetRow(conv: Convert, ar: map<string, Value>, i: nat)
    requires i < |REPLY_FIELDS|
    ensures REPLY_FIELDS[i].target in ReplyFields(conv, ar) <==> REPLY_FIELDS[i].source in ar
    ensures REPLY_FIELDS[i].source in ar ==>
              ReplyFields(conv, ar)[REPLY_FIELDS[i].target]
              == ReplyValue(conv, REPLY_FIELDS[i].source, ar[REPLY_FIELDS[i].source])
  {
    MappedSetting(conv, ar, i);
  }

  /** A delay of two numbers with a dash between them is loaded as the two numbers. */
  lemma DelayRangeIsLoaded(conv: Convert, src: Sources, source: string, lo: string, hi: string)
    requires Loads(conv, src, "messages") && HasReply(src.system)
    requires source == "first_reply_delay" || source == "inter_reply_delay"
    requires EnvSilent(src.vars, "messages", source + "_seconds")
    requires var ar := src.system.value.fields["auto_reply"].fields;
             source in ar && ar[source] == Str(lo + ['-'] + hi) && '-' !in lo
    requires conv.toFloat(Text.Strip(lo)).Some? && conv.toFloat(Text.Strip(hi)).Some?
    ensures Lookup(Loaded(conv, src).value, "messages", source + "_seconds")
            == Some(List([Num(conv.toFloat(Text.Strip(lo)).value), Num(conv.toFloat(Text.Strip(hi)).value)]))
  {
    DelayRow(conv, src.system.value.fields["auto_reply"].fields, source);
    Text.IndexOfFirst(lo, '-', hi);
    ReplyIsLoaded(conv, src, source + "_seconds");
  }

  /** Any other delay is loaded as it is: no text, no dash, or a part that is no number. */
  lemma OtherDelayIsLoaded(conv: Convert, src: Sources, source: string)
    requires Loads(conv, src, "messages") && HasReply(src.system)
    requires source == "first_reply_delay" || source == "inter_reply_delay"
    requires EnvSilent(src.vars, "messages", source + "_seconds")
    requires source in src.system.value.fields["auto_reply"].fields
    requires var v := src.system.value.fields["auto_reply"].fields[source];
             v.Str? ==> forall i :: 0 <= i < |v.s| && v.s[i] == '-' && '-' !in v.s[..i] ==>
               conv.toFloat(Text.Strip(v.s[..i])).None? || conv.toFloat(Text.Strip(v.s[i + 1..])).None?
    ensures Lookup(Loaded(conv, src).value, "messages", source + "_seconds")
            == Some(src.system.value.fields["auto_reply"].fields[source])
  {
    DelayRow(conv, src.system.value.fields["auto_reply"].fields, source);
    ReplyIsLoaded(conv, src, source + "_seconds");
  }

  /** A further line sets its keyword to its reply, without the blanks around them, if neither is empty. */
  lemma KeywordLine(lines: seq<string>, x: string, y: string)
    requires '=' !in x
    ensures KeywordReplies(lines + [x + "=" + y])
            == if Text.Strip(x) != "" && Text.Strip(y) != ""
               then KeywordReplies(lines)[Text.Strip(x) := Str(Text.Strip(y))] else KeywordReplies(lines)
  {
    CookieMerge.PairAroundEquals(x, y);
    assert (lines + [x + "=" + y])[..|lines|] == lines;
  }

  /** A line without an equals sign gives nothing. */
  lemma OtherLine(lines: seq<string>, line: string)
    requires '=' !in line
    ensures KeywordReplies(lines + [line]) == KeywordReplies(lines)
  {
    Text.StripStrips(line);
    assert (lines + [line])[..|lines|] == lines;
  }

  lemma KeptKeys(rule: Value)
    requires rule.Dict?
    ensures RuleKept(rule) == Dict(map k | k in rule.fields && k in {
              "name", "keywords", "reply", "patterns", "priority", "categories", "needs_human", "human_reason",
              "phase", "skip_reply"} :: rule.fields[k])
  {
  }

  /** A further rule is kept if it has a name, with the keys of the runtime alone. */
  lemma {:induction false} FurtherRule(rules: seq<Value>, rule: Value)
    ensures rule.Dict? && "name" in rule.fields && Truthy(rule.fields["name"]) ==>
      RulesKept(rules + [rule]) == RulesKept(rules) + [Dict(map k | k in rule.fields && k in {
        "name", "keywords", "reply", "patterns", "priority", "categories", "needs_human", "human_reason", "phase",
        "skip_reply"} :: rule.fields[k])]
    ensures !(rule.Dict? && "name" in rule.fields && Truthy(rule.fields["name"])) ==>
      RulesKept(rules + [rule]) == RulesKept(rules)
  {
    if rules == [] {
      assert rules + [rule] == [rule] && [rule][1..] == rules;
      if Named(rule) {
        KeptKeys(rule);
      }
    } else {
      FurtherRule(rules[1..], rule);
      assert (rules + [rule])[1..] == rules[1..] + [rule];
    }
  }

  /** The keyword lines become the keyword replies, if any of them gives a reply. */
  lemma KeywordRepliesAreLoaded(conv: Convert, src: Sources, text: string)
    requires Loads(conv, src, "messages") && EnvSilent(src.vars, "messages", "keyword_replies")
    requires HasReply(src.system)
    requires At(src.system.value.fields["auto_reply"].fields, "keyword_replies_text") == Some(Str(text))
    requires KeywordReplies(TextLines.SplitLines(Text.Strip(text))) != map[]
    ensures Lookup(Loaded(conv, src).value, "messages", "keyword_replies")
            == Some(Dict(KeywordReplies(TextLines.SplitLines(Text.Strip(text)))))
  {
    ReplySettings(conv, src.system.value.fields["auto_reply"].fields);
    ReplyIsLoaded(conv, src, "keyword_replies");
  }

  /** The custom rules become the rules of the runtime. */
  lemma RulesAreLoaded(conv: Convert, src: Sources, rules: seq<Value>)
    requires Loads(conv, src, "messages") && EnvSilent(src.vars, "messages", "intent_rules")
    requires HasReply(src.system)
    requires At(src.system.value.fields["auto_reply"].fields, "custom_intent_rules") == Some(List(rules))
    ensures Lookup(Loaded(conv, src).value, "messages", "intent_rules") == Some(List(RulesKept(rules)))
  {
    ReplySettings(conv, src.system.value.fields["auto_reply"].fields);
    ReplyIsLoaded(conv, src, "intent_rules");
  }

  // ---- the slider settings ----

  /** A number loses its fraction, towards zero. */
  lemma ToIntTruncates(conv: Convert, x: real)
    ensures var n := ToInt(conv, Num(x));
            && n.Some?
            && (x >= 0.0 ==> n.value as real <= x < n.value as real + 1.0)
            && (x < 0.0 ==> n.value as real - 1.0 < x <= n.value as real)
  {
  }

  /** A switch is a number too, a text is read as one, and nothing else is. */
  lemma ToIntOfOthers(conv: Convert, s: string)
    ensures ToInt(conv, Bool(true)) == Some(1) && ToInt(conv, Bool(false)) == Some(0)
    ensures ToInt(conv, Str(s)) == conv.toInt(s)
    ensures forall v: Value :: v.Null? || v.List? || v.Dict? ==> ToInt(conv, v) == None
  {
  }

  /** Slider settings that are all given. */
  function Slider(on: bool, attempts: int, cooldown: int, headless: bool): map<string, Value> {
    map["enabled" := Bool(on), "max_attempts" := Num(attempts as real), "cooldown_seconds" := Num(cooldown as real),
        "headless" := Bool(headless)]
  }

  /** They stay as they are. */
  lemma GivenSlider(conv: Convert, on: bool, attempts: int, cooldown: int, headless: bool)
    ensures SliderSettings(conv, Slider(on, attempts, cooldown, headless))
            == Success(Dict(Slider(on, attempts, cooldown, headless)))
  {
    WholeToInt(conv, attempts);
    WholeToInt(conv, cooldown);
  }

  /** Given slider settings are loaded into the connection settings of the file or the defaults. */
  lemma SliderIsLoaded(conv: Convert, src: Sources, on: bool, attempts: int, cooldown: int, headless: bool)
    requires Loads(conv, src, "messages") && src.system.Content? && src.system.value.Dict?
    requires At(src.system.value.fields, "slider_auto_solve") == Some(Dict(Slider(on, attempts, cooldown, headless)))
    requires src.fileExists && Lookup(src.yaml.value, "messages", "ws").Some? ==>
      Plain(Lookup(src.yaml.value, "messages", "ws").value)
    ensures var file := if src.fileExists then Lookup(src.yaml.value, "messages", "ws") else None;
            var was := if file.Some? then file else Lookup(src.defaults, "messages", "ws");
            was.Some? && was.value.Dict? ==>
              Lookup(Loaded(conv, src).value, "messages", "ws")
              == Some(Dict(was.value.fields["slider_auto_solve" := Dict(Slider(on, attempts, cooldown, headless))]))
  {
    Precedence(conv, src, "messages", "ws");
    GivenSlider(conv, on, attempts, cooldown, headless);
    if src.fileExists && Lookup(src.yaml.value, "messages", "ws").Some? {
      ResolvePlain(src.vars, Lookup(src.yaml.value, "messages", "ws").value);
    }
  }

  lemma WholeToInt(conv: Convert, n: int)
    ensures ToInt(conv, Num(n as real)) == Some(n)
  {
    if n >= 0 {
      assert (n as real).Floor == n;
    } else {
      assert -(n as real) == (-n) as real && ((-n) as real).Floor == -n;
    }
  }

  /** Without settings of its own the solver is off, with two attempts and five minutes between them. */
  lemma DefaultSlider(conv: Convert)
    ensures SliderSettings(conv, map[]) == Success(Dict(map[
      "enabled" := Bool(false), "max_attempts" := Num(2.0), "cooldown_seconds" := Num(300.0),
      "headless" := Bool(false)]))
  {
    WholeToInt(conv, 2);
    WholeToInt(conv, 300);
  }

  /** An attempt number that is no number fails the settings. */
  lemma BadAttempts(conv: Convert, slider: map<string, Value>, raw: string)
    requires "max_attempts" in slider && slider["max_attempts"] == Str(raw)
    requires conv.toInt(raw).None?
    ensures SliderSettings(conv, slider) == Failure(BadNumber)
  {
  }

  /** The settings of a fingerprint browser. */
  function Fingerprint(on: bool, url: string, id: string): Value {
    Dict(map["enabled" := Bool(on), "api_url" := Str(url), "browser_id" := Str(id)])
  }

  /** A fingerprint browser is kept with its three settings, the local address by default. */
  lemma FingerprintIsKept(conv: Convert, slider: map<string, Value>, settings: map<string, Value>, on: bool,
                          url: string, id: string)
    requires SliderSettings(conv, slider) == Success(Dict(settings)) && "fingerprint_browser" !in slider
    ensures SliderSettings(conv, slider["fingerprint_browser" := Fingerprint(on, url, id)])
            == Success(Dict(settings["fingerprint_browser" := Fingerprint(on, url, id)]))
    ensures SliderSettings(conv, slider["fingerprint_browser" := Dict(map[])])
            == Success(Dict(settings["fingerprint_browser" := Fingerprint(false, "http://127.0.0.1:54345", "")]))
  {
  }

  /** An address or name that is no text is kept as the text that shows it. */
  lemma FingerprintIsShown(conv: Convert, slider: map<string, Value>, settings: map<string, Value>, url: Value,
                           id: Value)
    requires SliderSettings(conv, slider) == Success(Dict(settings)) && "fingerprint_browser" !in slider
    requires !url.Str? && !id.Str?
    ensures SliderSettings(conv, slider["fingerprint_browser" := Dict(map["api_url" := url, "browser_id" := id])])
            == Success(Dict(settings["fingerprint_browser" := Fingerprint(false, conv.shown(url), conv.shown(id))]))
  {
  }
}
