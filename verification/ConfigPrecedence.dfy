/** The merges of the layered configuration refine one precedence lookup; and exactly when a load fails. */
module ConfigPrecedence {
  import opened Outcomes
  import opened Json
  import opened LayeredConfig
  import Text

  // ---- one setting, layer by layer ----

  function At(fields: map<string, Value>, k: string): Option<Value> {
    if k in fields then Some(fields[k]) else None
  }

  function Lookup(cfg: Config, s: string, k: string): Option<Value> {
    At(Fields(cfg, s), k)
  }

  function OrElse(a: Option<Value>, b: Option<Value>): Option<Value> {
    if a.Some? then a else b
  }

  /** The section is missing or a dictionary, so that settings can be merged into it. */
  predicate Open(cfg: Config, s: string) {
    s in cfg ==> cfg[s].Dict?
  }

  /** What the environment sets: the value of the last row for the setting that has one. */
  function EnvSetting(conv: Convert, vars: Vars, rows: seq<Override>, s: string, k: string): Option<Value> {
    if rows == [] then None
    else
      var row := rows[|rows| - 1];
      OrElse(if (row.section, row.key) == (s, k) then OverrideValue(conv, vars, row) else None,
             EnvSetting(conv, vars, rows[..|rows| - 1], s, k))
  }

  /** What the dashboard's configuration sets. */
  function SystemSetting(conv: Convert, system: SystemFile, s: string, k: string): Option<Value> {
    if !Usable(system) then None
    else
      var sys := system.value.fields;
      if s in SHARED || s == "cookie_cloud" then Lookup(sys, s, k)
      else if s == "messages" && "auto_reply" in sys && sys["auto_reply"].Dict? then
        At(ReplyFields(conv, sys["auto_reply"].fields), k)
      else None
  }

  /** What the file sets, if there is one, with its references resolved. */
  function FileSetting(src: Sources, s: string, k: string): Option<Value>
    requires src.fileExists ==> src.yaml.Success?
  {
    if !src.fileExists then None
    else
      var raw := Lookup(src.yaml.value, s, k);
      if raw.Some? then Some(Resolve(src.vars, raw.value)) else None
  }

  lemma PutLookup(cfg: Config, t: string, fields: map<string, Value>, s: string, k: string)
    ensures Open(Put(cfg, t, fields), s) == Open(cfg, s)
    ensures Lookup(Put(cfg, t, fields), s, k)
         == if s == t && Open(cfg, s) then OrElse(At(fields, k), Lookup(cfg, s, k)) else Lookup(cfg, s, k)
  {
  }

  lemma {:induction false} SharedLookup(cfg: Config, sys: Config, names: seq<string>, s: string, k: string)
    ensures Open(PutShared(cfg, sys, names), s) == Open(cfg, s)
    ensures Lookup(PutShared(cfg, sys, names), s, k)
         == if s in names && Open(cfg, s) then OrElse(Lookup(sys, s, k), Lookup(cfg, s, k)) else Lookup(cfg, s, k)
  {
    if names != [] {
      var front, t := names[..|names| - 1], names[|names| - 1];
      assert s in names <==> s in front || s == t;
      SharedLookup(cfg, sys, front, s, k);
      if t in sys && sys[t].Dict? {
        PutLookup(PutShared(cfg, sys, front), t, sys[t].fields, s, k);
      }
    }
  }

  lemma {:induction false} OverriddenLookup(conv: Convert, vars: Vars, cfg: Config, rows: seq<Override>, s: string,
                                            k: string)
    ensures Lookup(Overridden(conv, vars, cfg, rows), s, k)
            == OrElse(EnvSetting(conv, vars, rows, s, k), Lookup(cfg, s, k))
  {
    if rows != [] {
      OverriddenLookup(conv, vars, cfg, rows[..|rows| - 1], s, k);
    }
  }

  // ---- the dashboard's layer ----

  /** Rows with targets of their own: each mapped setting has its own source, and nothing else is set. */
  predicate OwnTargets(rows: seq<ReplyField>) {
    forall i, j :: 0 <= i < j < |rows| ==> rows[i].target != rows[j].target
  }

  predicate IsTarget(rows: seq<ReplyField>, k: string) {
    exists i :: 0 <= i < |rows| && rows[i].target == k
  }

  lemma {:induction false} NoTarget(conv: Convert, ar: map<string, Value>, rows: seq<ReplyField>, k: string)
    requires !IsTarget(rows, k)
    ensures k !in MappedFields(conv, ar, rows)
  {
    if rows != [] {
      var front := rows[..|rows| - 1];
      assert forall i :: 0 <= i < |front| ==> front[i] == rows[i];
      assert rows[|rows| - 1].target != k;
      NoTarget(conv, ar, front, k);
    }
  }

  /** What a row of the table makes of its source. */
  function RowSetting(conv: Convert, ar: map<string, Value>, row: ReplyField): Option<Value> {
    if row.source in ar then Some(ReplyValue(conv, row.source, ar[row.source])) else None
  }

  lemma {:induction false} MappedAt(conv: Convert, ar: map<string, Value>, rows: seq<ReplyField>, i: nat)
    requires OwnTargets(rows) && i < |rows|
    ensures At(MappedFields(conv, ar, rows), rows[i].target) == RowSetting(conv, ar, rows[i])
  {
    var front, k := rows[..|rows| - 1], rows[i].target;
    assert forall j :: 0 <= j < |front| ==> front[j] == rows[j];
    if i < |front| {
      assert rows[|rows| - 1].target != k;
      MappedAt(conv, ar, front, i);
    } else {
      NoTarget(conv, ar, front, k);
    }
  }

  lemma TargetsAreDistinct(i: nat, j: nat)
    requires i < j < |REPLY_FIELDS|
    ensures REPLY_FIELDS[i].target != REPLY_FIELDS[j].target
  {
  }

  lemma OtherKeys(i: nat)
    requires i < |REPLY_FIELDS|
    ensures REPLY_FIELDS[i].target != "ws"
    ensures REPLY_FIELDS[i].target != "keyword_replies" && REPLY_FIELDS[i].target != "intent_rules"
  {
  }

  lemma ReplyTargets()
    ensures OwnTargets(REPLY_FIELDS)
    ensures !IsTarget(REPLY_FIELDS, "ws") && !IsTarget(REPLY_FIELDS, "keyword_replies")
    ensures !IsTarget(REPLY_FIELDS, "intent_rules")
  {
    forall i, j | 0 <= i < j < |REPLY_FIELDS| ensures REPLY_FIELDS[i].target != REPLY_FIELDS[j].target {
      TargetsAreDistinct(i, j);
    }
    forall i | 0 <= i < |REPLY_FIELDS|
      ensures REPLY_FIELDS[i].target != "ws"
      ensures REPLY_FIELDS[i].target != "keyword_replies" && REPLY_FIELDS[i].target != "intent_rules"
    {
      OtherKeys(i);
    }
  }

  lemma MappedSetting(conv: Convert, ar: map<string, Value>, i: nat)
    requires i < |REPLY_FIELDS|
    ensures At(ReplyFields(conv, ar), REPLY_FIELDS[i].target) == RowSetting(conv, ar, REPLY_FIELDS[i])
  {
    ReplyTargets();
    OtherKeys(i);
    MappedAt(conv, ar, REPLY_FIELDS, i);
  }

  /**
    The settings of the automatic-reply section: the mapped ones, the keyword replies and the rules; never
    the connection.
   */
  lemma ReplySettings(conv: Convert, ar: map<string, Value>)
    ensures forall i :: 0 <= i < |REPLY_FIELDS| ==>
      At(ReplyFields(conv, ar), REPLY_FIELDS[i].target) == RowSetting(conv, ar, REPLY_FIELDS[i])
    ensures At(ReplyFields(conv, ar), "keyword_replies") == At(KeywordFields(ar), "keyword_replies")
    ensures At(ReplyFields(conv, ar), "intent_rules") == At(RuleFields(ar), "intent_rules")
    ensures "ws" !in ReplyFields(conv, ar)
  {
    ReplyTargets();
    NoTarget(conv, ar, REPLY_FIELDS, "ws");
    NoTarget(conv, ar, REPLY_FIELDS, "keyword_replies");
    NoTarget(conv, ar, REPLY_FIELDS, "intent_rules");
    forall i | 0 <= i < |REPLY_FIELDS|
      ensures At(ReplyFields(conv, ar), REPLY_FIELDS[i].target) == RowSetting(conv, ar, REPLY_FIELDS[i])
    {
      MappedSetting(conv, ar, i);
    }
  }

  /** The line gives a reply for the keyword. */
  predicate Gives(line: string, k: string) {
    KeywordReply(line).Some? && KeywordReply(line).value.0 == k
  }

  lemma {:induction false} NoLineGives(lines: seq<string>, k: string)
    requires forall i :: 0 <= i < |lines| ==> !Gives(lines[i], k)
    ensures k !in KeywordReplies(lines)
  {
    if lines != [] {
      var front := lines[..|lines| - 1];
      assert forall i :: 0 <= i < |front| ==> front[i] == lines[i];
      assert !Gives(lines[|lines| - 1], k);
      NoLineGives(front, k);
    }
  }

  /** Among the lines for one keyword the last decides. */
  lemma {:induction false} LastLineDecides(lines: seq<string>, i: nat, k: string)
    requires i < |lines| && Gives(lines[i], k)
    requires forall j :: i < j < |lines| ==> !Gives(lines[j], k)
    ensures At(KeywordReplies(lines), k) == Some(Str(KeywordReply(lines[i]).value.1))
  {
    if i < |lines| - 1 {
      var front := lines[..|lines| - 1];
      assert forall j :: 0 <= j < |front| ==> front[j] == lines[j];
      assert !Gives(lines[|lines| - 1], k);
      LastLineDecides(front, i, k);
    }
  }

  /** The rules that are kept are the named ones: each with its name, and with no key that the runtime does not know. */
  lemma {:induction false} NamedRulesAreKept(rules: seq<Value>)
    ensures forall r :: r in rules && Named(r) ==> RuleKept(r) in RulesKept(rules)
    ensures forall v :: v in RulesKept(rules) ==> Named(v) && v.fields.Keys <= RULE_KEYS
    ensures |RulesKept(rules)| <= |rules|
  {
    if rules != [] {
      NamedRulesAreKept(rules[1..]);
    }
  }

  /** The slider settings go inside the connection settings of the messages, and nowhere else. */
  lemma PutSliderLookup(conv: Convert, cfg: Config, slider: map<string, Value>, s: string, k: string)
    requires PutSlider(conv, cfg, slider).Success?
    requires (s, k) != ("messages", "ws")
    ensures Lookup(PutSlider(conv, cfg, slider).value, s, k) == Lookup(cfg, s, k)
  {
    PutLookup(cfg, "messages", map[], s, k);
  }

  lemma RepliedLookup(conv: Convert, cfg: Config, sys: Config, s: string, k: string)
    ensures Open(Replied(conv, cfg, sys), s) == Open(cfg, s)
    ensures Lookup(Replied(conv, cfg, sys), s, k)
         == if Open(cfg, s) then OrElse(SystemSetting(conv, Content(Dict(sys)), s, k), Lookup(cfg, s, k)) else None
  {
    var shared := PutShared(cfg, sys, SHARED);
    var clouded := PutShared(shared, sys, ["cookie_cloud"]);
    SharedLookup(cfg, sys, SHARED, s, k);
    SharedLookup(shared, sys, ["cookie_cloud"], s, k);
    if "auto_reply" in sys && sys["auto_reply"].Dict? {
      PutLookup(clouded, "messages", ReplyFields(conv, sys["auto_reply"].fields), s, k);
    }
  }

  /** Merging the dashboard's configuration sets what it has for each open section and keeps the rest. */
  lemma SystemLookup(conv: Convert, cfg: Config, system: SystemFile, s: string, k: string)
    requires MergeSystem(conv, cfg, system).Success?
    requires (s, k) != ("messages", "ws")
    ensures Lookup(MergeSystem(conv, cfg, system).value, s, k)
         == if Open(cfg, s) then OrElse(SystemSetting(conv, system, s, k), Lookup(cfg, s, k)) else None
  {
    if Usable(system) {
      var sys := system.value.fields;
      RepliedLookup(conv, cfg, sys, s, k);
      if "slider_auto_solve" in sys && sys["slider_auto_solve"].Dict? {
        PutSliderLookup(conv, Replied(conv, cfg, sys), sys["slider_auto_solve"].fields, s, k);
      }
    }
  }

  /** Connection settings with the slider settings in them, if they are missing or a dictionary. */
  function SliderIn(conv: Convert, slider: map<string, Value>, ws: Option<Value>): Option<Value> {
    var settings := SliderSettings(conv, slider);
    if settings.Failure? || (ws.Some? && !ws.value.Dict?) then ws
    else Some(Dict((if ws.None? then map[] else ws.value.fields)["slider_auto_solve" := settings.value]))
  }

  /** What becomes of the connection settings under the dashboard's configuration. */
  function WithSlider(conv: Convert, system: SystemFile, ws: Option<Value>): Option<Value> {
    if Usable(system) && "slider_auto_solve" in system.value.fields
       && system.value.fields["slider_auto_solve"].Dict?
    then SliderIn(conv, system.value.fields["slider_auto_solve"].fields, ws)
    else ws
  }

  /** There is a place for slider settings, and they hold a number that cannot be read. */
  predicate BadSlider(conv: Convert, cfg: Config, slider: map<string, Value>) {
    var ws := Lookup(cfg, "messages", "ws");
    Open(cfg, "messages") && (ws.Some? ==> ws.value.Dict?) && SliderSettings(conv, slider).Failure?
  }

  lemma PutSliderWs(conv: Convert, cfg: Config, slider: map<string, Value>)
    ensures PutSlider(conv, cfg, slider).Failure? == BadSlider(conv, cfg, slider)
    ensures PutSlider(conv, cfg, slider).Success? && Open(cfg, "messages") ==>
      Lookup(PutSlider(conv, cfg, slider).value, "messages", "ws")
          == SliderIn(conv, slider, Lookup(cfg, "messages", "ws"))
  {
    PutLookup(cfg, "messages", map[], "messages", "ws");
  }

  lemma RepliedWs(conv: Convert, cfg: Config, sys: Config)
    ensures Open(Replied(conv, cfg, sys), "messages") == Open(cfg, "messages")
    ensures Lookup(Replied(conv, cfg, sys), "messages", "ws") == Lookup(cfg, "messages", "ws")
  {
    RepliedLookup(conv, cfg, sys, "messages", "ws");
    if "auto_reply" in sys && sys["auto_reply"].Dict? {
      ReplySettings(conv, sys["auto_reply"].fields);
    }
  }

  lemma SliderLookup(conv: Convert, cfg: Config, system: SystemFile)
    requires MergeSystem(conv, cfg, system).Success? && Open(cfg, "messages")
    ensures Lookup(MergeSystem(conv, cfg, system).value, "messages", "ws")
            == WithSlider(conv, system, Lookup(cfg, "messages", "ws"))
  {
    if Usable(system) {
      var sys := system.value.fields;
      RepliedWs(conv, cfg, sys);
      if "slider_auto_solve" in sys && sys["slider_auto_solve"].Dict? {
        PutSliderWs(conv, Replied(conv, cfg, sys), sys["slider_auto_solve"].fields);
      }
    }
  }

  // ---- the environment's layer ----

  predicate For(row: Override, s: string, k: string) {
    row.section == s && row.key == k
  }

  lemma {:induction false} NoRow(conv: Convert, vars: Vars, rows: seq<Override>, s: string, k: string)
    requires forall i :: 0 <= i < |rows| ==> !For(rows[i], s, k)
    ensures EnvSetting(conv, vars, rows, s, k) == None
  {
    if rows != [] {
      var front := rows[..|rows| - 1];
      assert forall i :: 0 <= i < |front| ==> front[i] == rows[i];
      assert !For(rows[|rows| - 1], s, k);
      NoRow(conv, vars, front, s, k);
    }
  }

  /** If no other row is for its setting, a row decides the setting alone. */
  lemma {:induction false} OnlyRow(conv: Convert, vars: Vars, rows: seq<Override>, i: nat, s: string, k: string)
    requires i < |rows| && For(rows[i], s, k)
    requires forall j :: 0 <= j < |rows| && j != i ==> !For(rows[j], s, k)
    ensures EnvSetting(conv, vars, rows, s, k) == OverrideValue(conv, vars, rows[i])
  {
    var front := rows[..|rows| - 1];
    assert forall j :: 0 <= j < |front| ==> front[j] == rows[j];
    if i < |front| {
      assert !For(rows[|rows| - 1], s, k);
      OnlyRow(conv, vars, front, i, s, k);
    } else {
      NoRow(conv, vars, front, s, k);
    }
  }

  lemma RowsAreDistinct(i: nat, j: nat)
    requires i < |OVERRIDES| && j < |OVERRIDES| && i != j
    ensures !For(OVERRIDES[j], OVERRIDES[i].section, OVERRIDES[i].key)
  {
  }

  /** Each row of the table decides its own setting, and the connection settings have no row. */
  lemma EnvRows(conv: Convert, vars: Vars)
    ensures forall i :: 0 <= i < |OVERRIDES| ==>
      EnvSetting(conv, vars, OVERRIDES, OVERRIDES[i].section, OVERRIDES[i].key)
          == OverrideValue(conv, vars, OVERRIDES[i])
    ensures EnvSetting(conv, vars, OVERRIDES, "messages", "ws") == None
  {
    forall i | 0 <= i < |OVERRIDES|
      ensures EnvSetting(conv, vars, OVERRIDES, OVERRIDES[i].section, OVERRIDES[i].key)
              == OverrideValue(conv, vars, OVERRIDES[i])
    {
      forall j | 0 <= j < |OVERRIDES| && j != i ensures !For(OVERRIDES[j], OVERRIDES[i].section, OVERRIDES[i].key) {
        RowsAreDistinct(i, j);
      }
      OnlyRow(conv, vars, OVERRIDES, i, OVERRIDES[i].section, OVERRIDES[i].key);
    }
    NoRow(conv, vars, OVERRIDES, "messages", "ws");
  }

  // ---- the two lowest layers ----

  predicate PlainConfig(cfg: Config) {
    forall s :: s in cfg ==> Plain(cfg[s])
  }

  /**
    The file was read and validated, which makes a dictionary of every section that has defaults; the
    defaults are dictionaries.
   */
  predicate Validated(src: Sources) {
    && (forall s :: s in src.defaults ==> src.defaults[s].Dict?)
    && (src.fileExists && src.yaml.Success? ==> forall s :: s in src.defaults ==> Open(src.yaml.value, s))
  }

  lemma ResolvedLookup(vars: Vars, cfg: Config, s: string, k: string)
    ensures Open(ResolveConfig(vars, cfg), s) == Open(cfg, s)
    ensures var raw := Lookup(cfg, s, k);
            Lookup(ResolveConfig(vars, cfg), s, k) == if raw.Some? then Some(Resolve(vars, raw.value)) else None
  {
  }

  lemma DefaultsLookup(cfg: Config, defaults: Config, s: string, k: string)
    requires Open(cfg, s) && Open(defaults, s)
    ensures Open(WithDefaults(cfg, defaults), s)
    ensures Lookup(WithDefaults(cfg, defaults), s, k) == OrElse(Lookup(cfg, s, k), Lookup(defaults, s, k))
  {
  }

  /** Whichever branch ran: the file's resolved value, or the default. */
  lemma BaseLookup(src: Sources, s: string, k: string)
    requires src.fileExists ==> src.yaml.Success? && Open(src.yaml.value, s)
    requires PlainConfig(src.defaults) && Open(src.defaults, s)
    ensures Open(Base(src), s)
    ensures Lookup(Base(src), s, k) == OrElse(FileSetting(src, s, k), Lookup(src.defaults, s, k))
  {
    if src.fileExists {
      ResolvedLookup(src.vars, src.yaml.value, s, k);
      DefaultsLookup(ResolveConfig(src.vars, src.yaml.value), src.defaults, s, k);
    } else {
      DefaultsLookup(map[], src.defaults, s, k);
      ResolvedLookup(src.vars, WithDefaults(map[], src.defaults), s, k);
      var plain := Lookup(src.defaults, s, k);
      if plain.Some? {
        assert Plain(src.defaults[s]);
        ResolvePlain(src.vars, plain.value);
      }
    }
  }

  // ---- precedence ----

  /**
    The environment, then the dashboard, then the file, then the defaults; the slider settings go into what
    the lower layers give.
   */
  function Effective(conv: Convert, src: Sources, s: string, k: string): Option<Value>
    requires src.fileExists ==> src.yaml.Success?
  {
    var below := OrElse(FileSetting(src, s, k), Lookup(src.defaults, s, k));
    if (s, k) == ("messages", "ws") then WithSlider(conv, src.system, below)
    else OrElse(EnvSetting(conv, src.vars, OVERRIDES, s, k), OrElse(SystemSetting(conv, src.system, s, k), below))
  }

  lemma Precedence(conv: Convert, src: Sources, s: string, k: string)
    requires Loaded(conv, src).Success?
    requires src.fileExists ==> Open(src.yaml.value, s)
    requires PlainConfig(src.defaults) && Open(src.defaults, s)
    ensures Lookup(Loaded(conv, src).value, s, k) == Effective(conv, src, s, k)
  {
    var merged := MergeSystem(conv, Base(src), src.system).value;
    BaseLookup(src, s, k);
    OverriddenLookup(conv, src.vars, merged, OVERRIDES, s, k);
    if (s, k) == ("messages", "ws") {
      SliderLookup(conv, Base(src), src.system);
      EnvRows(conv, src.vars);
    } else {
      SystemLookup(conv, Base(src), src.system, s, k);
    }
  }

  /** For a row of the table: its parseable environment value wins over every other layer. */
  lemma OverridePrecedence(conv: Convert, src: Sources, i: nat)
    requires i < |OVERRIDES|
    requires Loaded(conv, src).Success?
    requires src.fileExists ==> Open(src.yaml.value, OVERRIDES[i].section)
    requires PlainConfig(src.defaults) && Open(src.defaults, OVERRIDES[i].section)
    ensures var row := OVERRIDES[i];
            Lookup(Loaded(conv, src).value, row.section, row.key)
            == OrElse(OverrideValue(conv, src.vars, row),
                      OrElse(SystemSetting(conv, src.system, row.section, row.key),
                             OrElse(FileSetting(src, row.section, row.key),
                                    Lookup(src.defaults, row.section, row.key))))
  {
    Precedence(conv, src, OVERRIDES[i].section, OVERRIDES[i].key);
    EnvRows(conv, src.vars);
    assert OVERRIDES[i].key != "ws";
  }

  // ---- when a load fails ----

  /** What the dashboard has for the cookie service or the slider cannot be merged. */
  predicate Unmergeable(conv: Convert, cfg: Config, sys: Config) {
    || BadCloud(cfg, sys)
    || ("slider_auto_solve" in sys && sys["slider_auto_solve"].Dict?
        && BadSlider(conv, cfg, sys["slider_auto_solve"].fields))
  }

  lemma MergeFailsExactly(conv: Convert, cfg: Config, system: SystemFile)
    ensures MergeSystem(conv, cfg, system).Failure?
         == (system.Raises? || (Usable(system) && Unmergeable(conv, cfg, system.value.fields)))
  {
    if Usable(system) {
      var sys := system.value.fields;
      SharedLookup(cfg, sys, SHARED, "cookie_cloud", "");
      assert Open(PutShared(cfg, sys, SHARED), "cookie_cloud") == Open(cfg, "cookie_cloud");
      RepliedWs(conv, cfg, sys);
      if "slider_auto_solve" in sys && sys["slider_auto_solve"].Dict? {
        PutSliderWs(conv, Replied(conv, cfg, sys), sys["slider_auto_solve"].fields);
      }
    }
  }

  lemma LoadFailsExactly(conv: Convert, src: Sources)
    ensures Loaded(conv, src).Failure?
         == ((src.fileExists && (src.yaml.Failure? || src.dotenv.Some?))
             || src.system.Raises?
             || (Usable(src.system) && Unmergeable(conv, Base(src), src.system.value.fields)))
  {
    if src.fileExists ==> src.yaml.Success? {
      MergeFailsExactly(conv, Base(src), src.system);
    }
  }

  /** The error of a failed load is that of the first file that fails: the YAML file, `.env`, the dashboard's. */
  lemma LoadErrors(conv: Convert, src: Sources)
    ensures src.fileExists && src.yaml.Failure? ==> Loaded(conv, src) == Failure(src.yaml.error)
    ensures src.fileExists && src.yaml.Success? && src.dotenv.Some? ==>
              Loaded(conv, src) == Failure(if src.dotenv.value == Denied then DotenvDenied else DotenvUndecodable)
    ensures (src.fileExists ==> src.yaml.Success? && src.dotenv.None?) && src.system.Raises? ==>
              Loaded(conv, src) == Failure(UnreadableSystemFile)
  {
  }

  // ---- reading a setting ----

  function GetPath(v: Value, keys: seq<string>): Option<Value> {
    if keys == [] then Some(v)
    else if v.Dict? && keys[0] in v.fields then GetPath(v.fields[keys[0]], keys[1..])
    else None
  }

  lemma GetOne(v: Value, k: string)
    ensures GetPath(v, [k]) == if v.Dict? && k in v.fields then Some(v.fields[k]) else None
  {
    var none: seq<string> := [];
    assert [k][1..] == none;
    if v.Dict? && k in v.fields {
      assert GetPath(v.fields[k], none) == Some(v.fields[k]);
    }
  }

  lemma GetTwo(v: Value, s: string, k: string)
    ensures GetPath(v, [s, k]) == if v.Dict? && s in v.fields then GetPath(v.fields[s], [k]) else None
  {
    assert [s, k][1..] == [k];
  }

  /** A dotted key of two parts reads the setting of a section. */
  lemma DottedKeyReadsSetting(cfg: Config, s: string, k: string)
    requires '.' !in s && '.' !in k
    ensures GetPath(Dict(cfg), Text.Split(s + "." + k, '.')) == Lookup(cfg, s, k)
  {
    Text.SplitFirst(s, '.', k);
    Text.SplitOne(k, '.');
    assert s + ['.'] + k == s + "." + k;
    assert Text.Split(s + "." + k, '.') == [s, k];
    GetTwo(Dict(cfg), s, k);
    if s in cfg {
      GetOne(cfg[s], k);
    }
  }
}
