/** The configuration object: its merges, loads, reloads and reads, in place. */
module RuntimeConfig {
  import opened Outcomes
  import opened Json
  import opened LayeredConfig
  import opened ConfigPrecedence
  import opened ConfigReload
  import CookieMerge
  import Text
  import TextLines

  function Only(cfg: Config, names: set<string>): Config {
    map s | s in cfg && s in names :: cfg[s]
  }

  class ConfigStore {
    var config: Config
    var lastMtimeCheck: real
    var sysConfigMtime: real

    function Model(): Store
      reads this
    {
      Store(config, lastMtimeCheck, sysConfigMtime)
    }

    constructor ()
      ensures Model() == START
    {
      config, lastMtimeCheck, sysConfigMtime := map[], 0.0, 0.0;
    }

    method FillMissing(fields: map<string, Value>, values: map<string, Value>) returns (filled: map<string, Value>)
      ensures filled == values + fields
    {
      var todo := values.Keys;
      filled := fields;
      while todo != {}
        invariant todo <= values.Keys
        invariant forall k :: k in filled <==> k in fields || (k in values && k !in todo)
        invariant forall k :: k in filled ==> filled[k] == if k in fields then fields[k] else values[k]
        decreases |todo|
      {
        var k :| k in todo;
        if k !in filled {
          filled := filled[k := values[k]];
        }
        todo := todo - {k};
      }
      assert filled == values + fields;
    }

    method SetSectionDefaults(s: string, values: map<string, Value>)
      requires Open(config, s)
      modifies `config
      ensures config == old(config)[s := Dict(values + Fields(old(config), s))]
    {
      if s !in config {
        config := config[s := Dict(values)];
        assert values + map[] == values;
      } else {
        var filled := FillMissing(config[s].fields, values);
        config := config[s := Dict(filled)];
      }
    }

    method SetDefaults(defaults: Config)
      requires forall s :: s in defaults ==> defaults[s].Dict? && Open(config, s)
      modifies `config
      ensures config == WithDefaults(old(config), defaults)
    {
      var todo := defaults.Keys;
      WithNoDefaults(config, defaults);
      while todo != {}
        invariant todo <= defaults.Keys
        invariant config == WithDefaults(old(config), Only(defaults, defaults.Keys - todo))
        decreases |todo|
      {
        var s :| s in todo;
        WithOneMore(old(config), defaults, todo, s);
        SetSectionDefaults(s, defaults[s].fields);
        todo := todo - {s};
      }
      OnlyAll(defaults);
      assert defaults.Keys - todo == defaults.Keys;
    }

    method UpdateSection(s: string, fields: map<string, Value>)
      modifies `config
      ensures config == Put(old(config), s, fields)
    {
      if s !in config {
        config := config[s := Dict(map[])];
      }
      if config[s].Dict? {
        config := config[s := Dict(config[s].fields + fields)];
      }
      assert s !in old(config) ==> config[s].fields == fields && config == old(config)[s := Dict(fields)];
    }

    method MergeShared(sys: Config, names: seq<string>)
      modifies `config
      ensures config == PutShared(old(config), sys, names)
    {
      for i := 0 to |names|
        invariant config == PutShared(old(config), sys, names[..i])
      {
        var s := names[i];
        SharedStep(old(config), sys, names, i);
        if s in sys && sys[s].Dict? {
          UpdateSection(s, sys[s].fields);
        }
      }
      assert names[..|names|] == names;
    }

    method ReadKeywordReplies(text: string) returns (replies: map<string, Value>)
      ensures replies == KeywordReplies(TextLines.SplitLines(Text.Strip(text)))
    {
      var lines := TextLines.SplitLines(Text.Strip(text));
      replies := map[];
      for i := 0 to |lines|
        invariant replies == KeywordReplies(lines[..i])
      {
        assert lines[..i + 1][..i] == lines[..i];
        var pair := CookieMerge.Pair(lines[i]);
        if pair.Some? && pair.value.0 != "" && pair.value.1 != "" {
          replies := replies[pair.value.0 := Str(pair.value.1)];
        }
      }
      assert lines[..|lines|] == lines;
    }

    method KeepRules(rules: seq<Value>) returns (kept: seq<Value>)
      ensures kept == RulesKept(rules)
    {
      kept := [];
      assert rules[0..] == rules;
      for i := 0 to |rules|
        invariant kept + RulesKept(rules[i..]) == RulesKept(rules)
      {
        RulesStep(kept, rules, i);
        if Named(rules[i]) {
          kept := kept + [RuleKept(rules[i])];
        }
      }
      assert kept + [] == kept;
    }

    method MapFields(conv: Convert, ar: map<string, Value>, was: map<string, Value>) returns (msgs: map<string, Value>)
      ensures msgs == was + MappedFields(conv, ar, REPLY_FIELDS)
    {
      msgs := was;
      OverlayNothing(was);
      for i := 0 to |REPLY_FIELDS|
        invariant msgs == was + MappedFields(conv, ar, REPLY_FIELDS[..i])
      {
        MappedStep(conv, ar, REPLY_FIELDS, i);
        var row := REPLY_FIELDS[i];
        if row.source in ar {
          Overlay(was, MappedFields(conv, ar, REPLY_FIELDS[..i]), row.target,
                  ReplyValue(conv, row.source, ar[row.source]));
          msgs := msgs[row.target := ReplyValue(conv, row.source, ar[row.source])];
        }
      }
      assert REPLY_FIELDS[..|REPLY_FIELDS|] == REPLY_FIELDS;
    }

    method ReadReply(conv: Convert, ar: map<string, Value>, was: map<string, Value>) returns (msgs: map<string, Value>)
      ensures msgs == was + ReplyFields(conv, ar)
    {
      ghost var mapped := MappedFields(conv, ar, REPLY_FIELDS);
      msgs := MapFields(conv, ar, was);
      OverlayNothing(mapped);
      if "keyword_replies_text" in ar && ar["keyword_replies_text"].Str? {
        var replies := ReadKeywordReplies(ar["keyword_replies_text"].s);
        if replies != map[] {
          Overlay(was, mapped, "keyword_replies", Dict(replies));
          msgs := msgs["keyword_replies" := Dict(replies)];
        }
      }
      OverlayNothing(mapped + KeywordFields(ar));
      if "custom_intent_rules" in ar && ar["custom_intent_rules"].List? {
        var kept := KeepRules(ar["custom_intent_rules"].items);
        Overlay(was, mapped + KeywordFields(ar), "intent_rules", List(kept));
        msgs := msgs["intent_rules" := List(kept)];
      }
    }

    method MergeReply(conv: Convert, ar: map<string, Value>)
      modifies `config
      ensures config == Put(old(config), "messages", ReplyFields(conv, ar))
    {
      UpdateSection("messages", map[]);
      if config["messages"].Dict? {
        PutOver(old(config), "messages", ReplyFields(conv, ar));
        var msgs := ReadReply(conv, ar, config["messages"].fields);
        config := config["messages" := Dict(msgs)];
      }
    }

    method MergeSlider(conv: Convert, slider: map<string, Value>) returns (failed: Option<Error>)
      modifies `config
      ensures failed.None? ==> PutSlider(conv, old(config), slider) == Success(config)
      ensures failed.Some? ==> PutSlider(conv, old(config), slider) == Failure(failed.value)
    {
      failed := None;
      UpdateSection("messages", map[]);
      if config["messages"].Dict? {
        var msgs := config["messages"].fields;
        var ws := FieldOr(msgs, "ws", Dict(map[]));
        if ws.Dict? {
          var settings := SliderSettings(conv, slider);
          if settings.Failure? {
            return Some(settings.error);
          }
          config := config["messages" := Dict(msgs["ws" := Dict(ws.fields["slider_auto_solve" := settings.value])])];
        }
      }
    }

    method MergeSystemConfig(conv: Convert, system: SystemFile) returns (failed: Option<Error>)
      modifies `config
      ensures failed.None? ==> MergeSystem(conv, old(config), system) == Success(config)
      ensures failed.Some? ==> MergeSystem(conv, old(config), system) == Failure(failed.value)
    {
      if system.Raises? {
        return Some(UnreadableSystemFile);
      }
      if system.Skipped? || !system.value.Dict? {
        return None;
      }
      var sys := system.value.fields;
      MergeShared(sys, SHARED);
      if "cookie_cloud" in sys && sys["cookie_cloud"].Dict?
         && "cookie_cloud" in config && !config["cookie_cloud"].Dict?
      {
        return Some(NotADictionary("cookie_cloud"));
      }
      MergeShared(sys, ["cookie_cloud"]);
      if "auto_reply" in sys && sys["auto_reply"].Dict? {
        MergeReply(conv, sys["auto_reply"].fields);
      }
      failed := None;
      if "slider_auto_solve" in sys && sys["slider_auto_solve"].Dict? {
        failed := MergeSlider(conv, sys["slider_auto_solve"].fields);
      }
    }

    method ApplyEnvOverrides(conv: Convert, vars: Vars)
      modifies `config
      ensures config == Overridden(conv, vars, old(config), OVERRIDES)
    {
      for i := 0 to |OVERRIDES|
        invariant config == Overridden(conv, vars, old(config), OVERRIDES[..i])
      {
        OverrideStep(conv, vars, old(config), OVERRIDES, i);
        var row := OVERRIDES[i];
        if row.variable in vars && vars[row.variable] != "" {
          var value := ParseValue(conv, vars[row.variable], row.kind);
          if value.Some? {
            if row.section !in config || !config[row.section].Dict? {
              config := config[row.section := Dict(map[])];
            }
            config := config[row.section := Dict(config[row.section].fields[row.key := value.value])];
          }
        }
      }
      assert OVERRIDES[..|OVERRIDES|] == OVERRIDES;
    }

    method LoadConfig(conv: Convert, src: Sources) returns (failed: Option<Error>)
      requires Validated(src) && config == map[]
      modifies `config
      ensures failed.None? ==> Loaded(conv, src) == Success(config)
      ensures failed.Some? ==> Loaded(conv, src) == Failure(failed.value)
    {
      if src.fileExists {
        if src.yaml.Failure? {
          return Some(src.yaml.error);
        }
        if src.dotenv.Some? {
          return Some(OfDotenv(src.dotenv.value));
        }
        config := src.yaml.value;
        config := ResolveConfig(src.vars, config);
        SetDefaults(src.defaults);
      } else {
        SetDefaults(src.defaults);
        config := ResolveConfig(src.vars, config);
      }
      failed := MergeSystemConfig(conv, src.system);
      if failed.None? {
        ApplyEnvOverrides(conv, src.vars);
      }
    }

    /** Loads into an empty configuration; a failure puts the old one back. */
    method Reload(conv: Convert, load: Load) returns (failed: Option<Error>)
      requires Validated(load.src)
      modifies `config, `sysConfigMtime
      ensures Model() == After(conv, old(Model()), Explicit(load))
      ensures failed == if Loaded(conv, load.src).Success? then None else Some(Loaded(conv, load.src).error)
    {
      var before := config;
      config := map[];
      failed := LoadConfig(conv, load.src);
      if failed.None? {
        sysConfigMtime := FileTime(load.noted);
      } else {
        config := before;
      }
    }

    /** An error of the operating system is swallowed, any other one raised. */
    method MaybeAutoReload(conv: Convert, e: Event) returns (failed: Option<Error>)
      requires e.Read? && Validated(e.load.src)
      modifies this
      ensures Model() == After(conv, old(Model()), e)
      ensures failed == if Attempts(old(Model()), e) then Raised(conv, e.load) else None
    {
      if e.now - lastMtimeCheck < CHECK_INTERVAL {
        return None;
      }
      lastMtimeCheck := e.now;
      failed := None;
      if e.seen.Some? && e.seen.value > sysConfigMtime {
        sysConfigMtime := e.seen.value;
        failed := Reload(conv, e.load);
        if failed == Some(DotenvDenied) {
          failed := None;
        }
      }
    }

    /** A read: a failed automatic reload is raised to the reader. */
    method Get(conv: Convert, e: Event, key: string, default: Value) returns (r: Result<Value, Error>)
      requires e.Read? && Validated(e.load.src)
      modifies this
      ensures Model() == After(conv, old(Model()), e)
      ensures r.Failure? <==> Attempts(old(Model()), e) && Raised(conv, e.load).Some?
      ensures r.Success? ==>
                var found := GetPath(Dict(config), Text.Split(key, '.'));
                r.value == if found.Some? then found.value else default
    {
      var failed := MaybeAutoReload(conv, e);
      if failed.Some? {
        return Failure(failed.value);
      }
      var keys := Text.Split(key, '.');
      var value := Dict(config);
      for i := 0 to |keys|
        invariant GetPath(value, keys[i..]) == GetPath(Dict(config), keys)
      {
        assert keys[i..][1..] == keys[i + 1..];
        if value.Dict? && keys[i] in value.fields {
          value := value.fields[keys[i]];
        } else {
          return Success(default);
        }
      }
      return Success(value);
    }
  }

  lemma WithNoDefaults(cfg: Config, defaults: Config)
    ensures WithDefaults(cfg, Only(defaults, defaults.Keys - defaults.Keys)) == cfg
  {
  }

  lemma OnlyAll(cfg: Config)
    ensures Only(cfg, cfg.Keys) == cfg
  {
  }

  lemma WithOneMore(cfg: Config, defaults: Config, todo: set<string>, s: string)
    requires s in defaults && defaults[s].Dict? && s in todo && Open(cfg, s)
    ensures var before := WithDefaults(cfg, Only(defaults, defaults.Keys - todo));
            && Open(before, s)
            && WithDefaults(cfg, Only(defaults, defaults.Keys - (todo - {s})))
               == before[s := Dict(defaults[s].fields + Fields(before, s))]
  {
    var few, more := Only(defaults, defaults.Keys - todo), Only(defaults, defaults.Keys - (todo - {s}));
    OneSectionMore(cfg, few, more, s, defaults[s]);
  }

  lemma OneSectionMore(cfg: Config, few: Config, more: Config, s: string, v: Value)
    requires s !in few && more == few[s := v] && v.Dict? && Open(cfg, s)
    ensures var before := WithDefaults(cfg, few);
            Open(before, s) && WithDefaults(cfg, more) == before[s := Dict(v.fields + Fields(before, s))]
  {
    assert v.fields + map[] == v.fields;
  }

  lemma PutOver(cfg: Config, s: string, fields: map<string, Value>)
    requires Open(cfg, s)
    ensures Put(cfg, s, fields) == Put(cfg, s, map[])[s := Dict(Fields(cfg, s) + fields)]
    ensures Put(cfg, s, map[])[s] == Dict(Fields(cfg, s))
  {
    var none: map<string, Value> := map[];
    assert none + fields == fields && Fields(cfg, s) + none == Fields(cfg, s);
  }

  lemma RulesStep(kept: seq<Value>, rules: seq<Value>, i: nat)
    requires i < |rules|
    ensures kept + RulesKept(rules[i..])
         == (if Named(rules[i]) then kept + [RuleKept(rules[i])] else kept) + RulesKept(rules[i + 1..])
  {
    assert rules[i..][0] == rules[i] && rules[i..][1..] == rules[i + 1..];
  }

  lemma MappedStep(conv: Convert, ar: map<string, Value>, rows: seq<ReplyField>, i: nat)
    requires i < |rows|
    ensures var before := MappedFields(conv, ar, rows[..i]);
            MappedFields(conv, ar, rows[..i + 1])
            == if rows[i].source in ar
                then before[rows[i].target := ReplyValue(conv, rows[i].source, ar[rows[i].source])] else before
  {
    assert rows[..i + 1][..i] == rows[..i];
  }

  lemma Overlay(was: Config, m: Config, k: string, v: Value)
    ensures (was + m)[k := v] == was + m[k := v] == was + (m + map[k := v])
  {
    assert m[k := v] == m + map[k := v];
  }

  lemma OverlayNothing(m: Config)
    ensures m + map[] == m
  {
  }

  lemma SharedStep(cfg: Config, sys: Config, names: seq<string>, i: nat)
    requires i < |names|
    ensures var before := PutShared(cfg, sys, names[..i]);
            PutShared(cfg, sys, names[..i + 1])
            == if names[i] in sys && sys[names[i]].Dict? then Put(before, names[i], sys[names[i]].fields) else before
  {
    assert names[..i + 1][..i] == names[..i];
  }

  lemma OverrideStep(conv: Convert, vars: Vars, cfg: Config, rows: seq<Override>, i: nat)
    requires i < |rows|
    ensures var before, v := Overridden(conv, vars, cfg, rows[..i]), OverrideValue(conv, vars, rows[i]);
            Overridden(conv, vars, cfg, rows[..i + 1])
            == if v.Some? then PutSetting(before, rows[i].section, rows[i].key, v.value) else before
  {
    assert rows[..i + 1][..i] == rows[..i];
  }
}
