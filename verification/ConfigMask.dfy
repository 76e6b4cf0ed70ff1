/**
  The dashboard's view of the system configuration: secrets are masked when it is read, and masked
  values are ignored when it is saved back.
 */
module ConfigMask {
  import opened Outcomes
  import opened Json
  import opened Text

  const ALLOWED: set<string> := {
    "xianguanjia", "ai", "oss", "auto_reply", "auto_publish", "order_reminder", "pricing", "delivery",
    "notifications", "store", "auto_price_modify", "cookie_cloud", "slider_auto_solve", "sensitive_words"
  }

  const SECRETS: seq<string> := ["app_secret", "api_key", "access_key_secret", "mch_secret", "webhook"]

  const MASK := "****"

  predicate Sensitive(key: string) {
    exists i :: 0 <= i < |SECRETS| && Contains(key, SECRETS[i])
  }

  // ---- masking ----

  /** The text of a value that is not a string, as Python's `str` gives it. */
  type Shown = Value -> string

  function TextOf(shown: Shown, v: Value): string {
    if v.Str? then v.s else shown(v)
  }

  function FirstFour(text: string): string {
    if |text| <= 4 then text else text[..4]
  }

  function Masked(shown: Shown, key: string, v: Value): Value {
    if Sensitive(key) && Truthy(v) then Str(FirstFour(TextOf(shown, v)) + MASK) else v
  }

  function MaskedSection(shown: Shown, v: Value): Value {
    if v.Dict? then Dict(map k | k in v.fields :: Masked(shown, k, v.fields[k])) else v
  }

  function View(shown: Shown, cfg: Config): Config {
    map s | s in cfg :: MaskedSection(shown, cfg[s])
  }

  // ---- saving through the service ----

  datatype Error = TypeError(section: string)

  /** The service ignores a secret that ends like a mask. */
  predicate ServiceDrops(key: string, v: Value) {
    Sensitive(key) && v.Str? && IsSuffix(MASK, v.s)
  }

  /** The route also ignores names that begin with two underscores, and any mask inside a secret. */
  predicate RouteDrops(key: string, v: Value) {
    IsPrefix("__", key) || (Sensitive(Lower(key)) && v.Str? && Contains(v.s, MASK))
  }

  /** The two ways to save: the service's `update_config` and the route's `_save_config`. */
  datatype Way = ByService | ByRoute

  predicate Drops(way: Way, key: string, v: Value) {
    match way
    case ByService => ServiceDrops(key, v)
    case ByRoute => RouteDrops(key, v)
  }

  function Kept(way: Way, fields: map<string, Value>): map<string, Value> {
    map k | k in fields && !Drops(way, k, fields[k]) :: fields[k]
  }

  /** Sections that are not allowed are skipped; the route skips those that are not dictionaries too. */
  predicate Takes(way: Way, s: string, v: Value) {
    s in ALLOWED && (way.ByService? || v.Dict?)
  }

  /** A section after a save has merged one into it; merging into something else than a dictionary raises. */
  function SectionAfter(way: Way, cfg: Config, s: string, v: Value): Result<Value, Error>
    requires Takes(way, s, v)
  {
    if !v.Dict? then Success(v)
    else
      var present := s in cfg && (way.ByService? || Truthy(cfg[s]));
      var base := if present then cfg[s] else Dict(map[]);
      var kept := Kept(way, v.fields);
      if base.Dict? then Success(Dict(base.fields + kept))
      else if way.ByService? && kept == map[] then Success(base)
      else Failure(TypeError(s))
  }

  predicate Fails(way: Way, cfg: Config, body: Config, s: string) {
    s in body && Takes(way, s, body[s]) && SectionAfter(way, cfg, s, body[s]).Failure?
  }

  /** Merging one of these sections of the body raises. */
  ghost predicate RaisesIn(way: Way, cfg: Config, body: Config, names: set<string>) {
    exists s :: s in names && Fails(way, cfg, body, s)
  }

  ghost predicate Raises(way: Way, cfg: Config, body: Config) {
    RaisesIn(way, cfg, body, body.Keys)
  }

  /** The configuration once these sections of the body are merged. */
  ghost function Merged(way: Way, cfg: Config, body: Config, names: set<string>): Config
    requires !RaisesIn(way, cfg, body, names)
  {
    map s | s in cfg.Keys + names && (s in cfg || (s in body && Takes(way, s, body[s]))) ::
      if s in names && s in body && Takes(way, s, body[s]) then SectionAfter(way, cfg, s, body[s]).value else cfg[s]
  }

  /** The configuration after a save that does not raise. */
  ghost function Saved(way: Way, cfg: Config, body: Config): Config
    requires !Raises(way, cfg, body)
  {
    Merged(way, cfg, body, body.Keys)
  }

  // ---- the code, loop by loop ----

  method MaskFields(shown: Shown, fields: map<string, Value>) returns (masked: map<string, Value>)
    ensures Dict(masked) == MaskedSection(shown, Dict(fields))
  {
    masked := map[];
    var left := fields.Keys;
    while left != {}
      invariant left <= fields.Keys
      invariant masked == map k | k in fields && k !in left :: Masked(shown, k, fields[k])
      decreases |left|
    {
      var k :| k in left;
      var v := fields[k];
      if Sensitive(k) && Truthy(v) {
        var text := if v.Str? then v.s else shown(v);
        masked := masked[k := Str((if |text| <= 4 then text else text[..4]) + MASK)];
      } else {
        masked := masked[k := v];
      }
      left := left - {k};
    }
  }

  method MaskSensitive(shown: Shown, cfg: Config) returns (masked: Config)
    ensures masked == View(shown, cfg)
  {
    masked := map[];
    var left := cfg.Keys;
    while left != {}
      invariant left <= cfg.Keys
      invariant masked == map s | s in cfg && s !in left :: MaskedSection(shown, cfg[s])
      decreases |left|
    {
      var s :| s in left;
      if cfg[s].Dict? {
        var fields := MaskFields(shown, cfg[s].fields);
        masked := masked[s := Dict(fields)];
      } else {
        masked := masked[s := cfg[s]];
      }
      left := left - {s};
    }
  }

  method KeepFields(way: Way, fields: map<string, Value>) returns (clean: map<string, Value>)
    ensures clean == Kept(way, fields)
  {
    clean := map[];
    var left := fields.Keys;
    while left != {}
      invariant left <= fields.Keys
      invariant clean == map k | k in fields && k !in left && !Drops(way, k, fields[k]) :: fields[k]
      decreases |left|
    {
      var k :| k in left;
      if !Drops(way, k, fields[k]) {
        clean := clean[k := fields[k]];
      }
      left := left - {k};
    }
  }

  class ConfigService {
    /** What the configuration file holds. */
    var stored: Config

    constructor (stored: Config)
      ensures this.stored == stored
    {
      this.stored := stored;
    }

    method Read(shown: Shown) returns (view: Config)
      ensures view == View(shown, stored)
    {
      view := MaskSensitive(shown, stored);
    }

    /** The route's read shows settings of the YAML file that the stored configuration lacks. */
    method ReadRoute(shown: Shown, yamlSlider: Value, yamlRules: Value) returns (view: Config)
      ensures view == View(shown, Edited(stored, Injected(stored, yamlSlider, yamlRules)))
    {
      var cfg := stored;
      if "slider_auto_solve" !in cfg && yamlSlider.Dict? && Truthy(yamlSlider) {
        cfg := cfg["slider_auto_solve" := yamlSlider];
      }
      if "auto_reply" in cfg && cfg["auto_reply"].Dict? && "custom_intent_rules" !in cfg["auto_reply"].fields {
        if yamlRules.List? && Truthy(yamlRules) {
          cfg := cfg["auto_reply" := Dict(cfg["auto_reply"].fields["custom_intent_rules" := yamlRules])];
        }
      }
      InjectedIsEdit(stored, yamlSlider, yamlRules);
      view := MaskSensitive(shown, cfg);
    }

    /** A save that raises writes nothing. */
    method Save(way: Way, body: Config) returns (r: Result<Config, Error>)
      modifies this
      ensures r.Failure? <==> Raises(way, old(stored), body)
      ensures r.Success? ==> stored == Saved(way, old(stored), body) == r.value
      ensures r.Failure? ==> stored == old(stored)
    {
      r := MergeBody(way, stored, body);
      if r.Success? {
        stored := r.value;
      }
    }
  }

  /** One section of the body merged into the configuration, if it is taken. */
  ghost function MergedWith(way: Way, cfg: Config, body: Config, current: Config, s: string): Config
    requires s in body && !Fails(way, cfg, body, s)
  {
    if Takes(way, s, body[s]) then current[s := SectionAfter(way, cfg, s, body[s]).value] else current
  }

  method MergeSection(way: Way, current: Config, s: string, v: Value) returns (r: Result<Value, Error>)
    requires Takes(way, s, v)
    ensures r == SectionAfter(way, current, s, v)
  {
    if !v.Dict? {
      return Success(v);
    }
    var clean := KeepFields(way, v.fields);
    var base := if s in current && (way.ByService? || Truthy(current[s])) then current[s] else Dict(map[]);
    if base.Dict? {
      return Success(Dict(base.fields + clean));
    }
    return if way.ByService? && clean == map[] then Success(base) else Failure(TypeError(s));
  }

  method MergeOne(way: Way, ghost cfg: Config, body: Config, current: Config, s: string, ghost done: set<string>)
    returns (r: Result<Config, Error>)
    requires s in body && s !in done && !RaisesIn(way, cfg, body, done) && current == Merged(way, cfg, body, done)
    ensures r.Failure? <==> Fails(way, cfg, body, s)
    ensures r.Success? ==> r.value == MergedWith(way, cfg, body, current, s)
  {
    if !Takes(way, s, body[s]) {
      return Success(current);
    }
    var merged := MergeSection(way, current, s, body[s]);
    return if merged.Success? then Success(current[s := merged.value]) else Failure(merged.error);
  }

  /** The loop over the sections of the body, in any order. */
  method MergeBody(way: Way, cfg: Config, body: Config) returns (r: Result<Config, Error>)
    ensures r.Failure? <==> Raises(way, cfg, body)
    ensures r.Success? ==> r.value == Saved(way, cfg, body)
  {
    var current := cfg;
    var left := body.Keys;
    ghost var done: set<string> := {};
    MergedNothing(way, cfg, body);
    while left != {}
      invariant left !! done && left + done == body.Keys
      invariant !RaisesIn(way, cfg, body, done) && current == Merged(way, cfg, body, done)
      decreases |left|
    {
      var s :| s in left;
      var merged := MergeOne(way, cfg, body, current, s, done);
      if merged.Failure? {
        return merged;
      }
      MergedOneMore(way, cfg, body, done, s);
      current := merged.value;
      OneDone(body.Keys, left, done, s);
      left, done := left - {s}, done + {s};
    }
    assert done == body.Keys;
    return Success(current);
  }

  lemma OneDone(all: set<string>, left: set<string>, done: set<string>, s: string)
    requires left !! done && left + done == all && s in left
    ensures left - {s} !! done + {s} && (left - {s}) + (done + {s}) == all
  {
  }

  lemma MergedNothing(way: Way, cfg: Config, body: Config)
    ensures !RaisesIn(way, cfg, body, {}) && Merged(way, cfg, body, {}) == cfg
  {
  }

  lemma MergedOneMore(way: Way, cfg: Config, body: Config, done: set<string>, s: string)
    requires s in body && s !in done && !RaisesIn(way, cfg, body, done) && !Fails(way, cfg, body, s)
    ensures !RaisesIn(way, cfg, body, done + {s})
    ensures Merged(way, cfg, body, done + {s}) == MergedWith(way, cfg, body, Merged(way, cfg, body, done), s)
  {
    assert !RaisesIn(way, cfg, body, done + {s});
  }

  // ---- a mask is never saved ----

  lemma {:induction false} SuffixIsContained(a: string, part: string)
    ensures Contains(a + part, part)
  {
    if a == "" {
      assert a + part == part;
    } else {
      SuffixIsContained(a[1..], part);
      assert (a + part)[1..] == a[1..] + part;
    }
  }

  lemma {:induction false} LowerContains(s: string, part: string)
    requires Contains(s, part) && Lower(part) == part
    ensures Contains(Lower(s), part)
  {
    if IsPrefix(part, s) {
      LowerPrefix(s, part);
    } else {
      LowerContains(s[1..], part);
      assert Lower(s)[1..] == Lower(s[1..]);
    }
  }

  lemma {:induction false} LowerPrefix(s: string, part: string)
    requires IsPrefix(part, s) && Lower(part) == part
    ensures IsPrefix(part, Lower(s))
  {
    assert forall i :: 0 <= i < |part| ==> s[i] == part[i] && Lower(s)[i] == LowerChar(part[i]) == Lower(part)[i];
    assert Lower(s)[..|part|] == part;
  }

  predicate LowerCase(s: string) {
    s == "" || (!('A' <= s[0] <= 'Z') && LowerCase(s[1..]))
  }

  lemma {:induction false} LowerCaseStays(s: string)
    requires LowerCase(s)
    ensures Lower(s) == s
  {
    if s != "" {
      LowerCaseStays(s[1..]);
      assert [s[0]] + s[1..] == s;
    }
  }

  lemma SecretsAreLower(i: nat)
    requires i < |SECRETS|
    ensures Lower(SECRETS[i]) == SECRETS[i]
  {
    var s := SECRETS[i];
    forall j | 0 <= j < |s| ensures !('A' <= s[j] <= 'Z') {
    }
    NoUpper(s);
    LowerCaseStays(s);
  }

  lemma {:induction false} NoUpper(s: string)
    requires forall j :: 0 <= j < |s| ==> !('A' <= s[j] <= 'Z')
    ensures LowerCase(s)
  {
    if s != "" {
      NoUpper(s[1..]);
    }
  }

  /** What the read masks, the route recognises: its test of the lowered name covers the exact one. */
  lemma SensitiveLowered(key: string)
    requires Sensitive(key)
    ensures Sensitive(Lower(key))
  {
    var i :| 0 <= i < |SECRETS| && Contains(key, SECRETS[i]);
    SecretsAreLower(i);
    LowerContains(key, SECRETS[i]);
  }

  /** Either way of saving drops what either way would call a mask under a sensitive name. */
  lemma MaskIsDropped(way: Way, key: string, v: Value)
    requires ServiceDrops(key, v)
    ensures Drops(way, key, v)
  {
    SensitiveLowered(key);
    var text := v.s[..|v.s| - |MASK|];
    SuffixIsContained(text, MASK);
    assert v.s == text + MASK;
  }

  lemma MaskedIsDropped(way: Way, shown: Shown, key: string, v: Value)
    ensures Masked(shown, key, v) == v || Drops(way, key, Masked(shown, key, v))
  {
    if Sensitive(key) && Truthy(v) {
      var m := Masked(shown, key, v);
      assert m.s[|m.s| - |MASK|..] == MASK;
      MaskIsDropped(way, key, m);
    }
  }

  // ---- what a view gives away ----

  /** Two values that the view cannot tell apart: secrets that begin with the same four characters, or equal ones. */
  predicate SameShown(shown: Shown, key: string, v: Value, w: Value) {
    || v == w
    || (Sensitive(key) && Truthy(v) && Truthy(w) &&
        var a, b := TextOf(shown, v), TextOf(shown, w);
        if |a| < 4 || |b| < 4 then a == b else a[..4] == b[..4])
  }

  lemma SameBeginning(a: string, b: string)
    ensures FirstFour(a) + MASK == FirstFour(b) + MASK <==>
            if |a| < 4 || |b| < 4 then a == b else a[..4] == b[..4]
  {
    var x, y := FirstFour(a), FirstFour(b);
    assert (x + MASK)[..|x + MASK| - 4] == x && (y + MASK)[..|y + MASK| - 4] == y;
    assert |a| == 4 ==> a[..4] == a;
    assert |b| == 4 ==> b[..4] == b;
  }

  lemma MaskShowsExactly(shown: Shown, key: string, v: Value, w: Value)
    ensures Masked(shown, key, v) == Masked(shown, key, w) <==> SameShown(shown, key, v, w)
  {
    if Sensitive(key) && Truthy(v) && Truthy(w) {
      SameBeginning(TextOf(shown, v), TextOf(shown, w));
    } else if Sensitive(key) && (Truthy(v) || Truthy(w)) {
      var m := Masked(shown, key, if Truthy(v) then v else w);
      assert Truthy(m);
    }
  }

  ghost predicate SameShownSection(shown: Shown, v: Value, w: Value) {
    if v.Dict? && w.Dict? then
      v.fields.Keys == w.fields.Keys && forall k :: k in v.fields ==> SameShown(shown, k, v.fields[k], w.fields[k])
    else v == w
  }

  lemma SectionShowsExactly(shown: Shown, v: Value, w: Value)
    ensures MaskedSection(shown, v) == MaskedSection(shown, w) <==> SameShownSection(shown, v, w)
  {
    if v.Dict? && w.Dict? {
      var a, b := MaskedSection(shown, v).fields, MaskedSection(shown, w).fields;
      forall k | k in v.fields && k in w.fields
        ensures a[k] == b[k] <==> SameShown(shown, k, v.fields[k], w.fields[k])
      {
        MaskShowsExactly(shown, k, v.fields[k], w.fields[k]);
      }
      assert a.Keys == v.fields.Keys && b.Keys == w.fields.Keys;
      if SameShownSection(shown, v, w) {
        assert a == b;
      }
    }
  }

  /**
    Two configurations have the same view exactly when they differ at most in secrets of a section beyond
    their first four characters: a view tells nothing else of a secret, and hides nothing else.
   */
  lemma ViewShowsExactly(shown: Shown, a: Config, b: Config)
    ensures View(shown, a) == View(shown, b) <==>
            a.Keys == b.Keys && forall s :: s in a ==> SameShownSection(shown, a[s], b[s])
  {
    var x, y := View(shown, a), View(shown, b);
    assert x.Keys == a.Keys && y.Keys == b.Keys;
    forall s | s in a && s in b ensures x[s] == y[s] <==> SameShownSection(shown, a[s], b[s]) {
      SectionShowsExactly(shown, a[s], b[s]);
    }
  }

  /** Only one level is masked: a secret inside a setting that is itself a dictionary is shown in full. */
  lemma NestedSecretIsShown(shown: Shown, section: string, key: string, name: string, x: string, y: string)
    requires !Sensitive(key) && x != y
    ensures View(shown, map[section := Dict(map[key := Dict(map[name := Str(x)])])])
         != View(shown, map[section := Dict(map[key := Dict(map[name := Str(y)])])])
  {
    var a, b := map[key := Dict(map[name := Str(x)])], map[key := Dict(map[name := Str(y)])];
    assert a[key].fields[name] != b[key].fields[name];
    assert !SameShown(shown, key, a[key], b[key]);
    assert !SameShownSection(shown, Dict(a), Dict(b));
    var c, d := map[section := Dict(a)], map[section := Dict(b)];
    assert c[section] == Dict(a) && d[section] == Dict(b);
    ViewShowsExactly(shown, c, d);
  }

  // ---- reading and saving back ----

  /** Edits: for each section the values that the client changes or adds. */
  type Edits = map<string, map<string, Value>>

  /** A configuration with the edits applied. */
  function Edited(cfg: Config, edits: Edits): Config {
    map s | s in cfg.Keys + edits.Keys :: if s in edits then Dict(Fields(cfg, s) + edits[s]) else cfg[s]
  }

  /** The edited sections are allowed ones, and dictionaries where they exist. */
  ghost predicate Editable(cfg: Config, edits: Edits) {
    forall s :: s in edits ==> s in ALLOWED && (s in cfg ==> cfg[s].Dict?)
  }

  lemma MergeMaskedAt(way: Way, shown: Shown, base: map<string, Value>, edits: map<string, Value>, k: string)
    ensures var kept := Kept(way, MaskedSection(shown, Dict(base)).fields + edits);
            && (k in base + kept <==> k in base + Kept(way, edits))
            && (k in base + kept ==> (base + kept)[k] == (base + Kept(way, edits))[k])
  {
    if k in base {
      MaskedIsDropped(way, shown, k, base[k]);
    }
  }

  /** Merging a masked section with edits on top into the original adds just the edits that are kept. */
  lemma MergeMasked(way: Way, shown: Shown, base: map<string, Value>, edits: map<string, Value>)
    ensures base + Kept(way, MaskedSection(shown, Dict(base)).fields + edits) == base + Kept(way, edits)
  {
    forall k: string {
      MergeMaskedAt(way, shown, base, edits, k);
    }
  }

  lemma SectionMerged(way: Way, cfg: Config, s: string, v: Value)
    requires v.Dict? && s in ALLOWED && (s in cfg ==> cfg[s].Dict?)
    ensures SectionAfter(way, cfg, s, v) == Success(Dict(Fields(cfg, s) + Kept(way, v.fields)))
  {
    var none: map<string, Value> := map[];
    assert none + Kept(way, v.fields) == Kept(way, v.fields);
  }

  /** The section that saving the edited view gives. */
  lemma SavedSection(way: Way, shown: Shown, cfg: Config, edits: Edits, s: string)
    requires Editable(cfg, edits) && s in Edited(View(shown, cfg), edits)
    requires Takes(way, s, Edited(View(shown, cfg), edits)[s])
    ensures s in Edited(cfg, KeptEdits(way, edits))
    ensures SectionAfter(way, cfg, s, Edited(View(shown, cfg), edits)[s])
            == Success(Edited(cfg, KeptEdits(way, edits))[s])
  {
    var v := Edited(View(shown, cfg), edits)[s];
    if v.Dict? {
      var base, own := Fields(cfg, s), if s in edits then edits[s] else map[];
      assert v.fields == MaskedSection(shown, Dict(base)).fields + own;
      MergeMasked(way, shown, base, own);
      SectionMerged(way, cfg, s, v);
      NothingKept(way, base);
    }
  }

  /** The edits that a save keeps. */
  function KeptEdits(way: Way, edits: Edits): Edits {
    map s | s in edits :: Kept(way, edits[s])
  }

  lemma EditedViewNeverRaises(way: Way, shown: Shown, cfg: Config, edits: Edits)
    requires Editable(cfg, edits)
    ensures !Raises(way, cfg, Edited(View(shown, cfg), edits))
  {
    var body := Edited(View(shown, cfg), edits);
    forall s ensures !Fails(way, cfg, body, s) {
      if s in body && Takes(way, s, body[s]) {
        SavedSection(way, shown, cfg, edits, s);
      }
    }
  }

  lemma UntakenSection(way: Way, shown: Shown, cfg: Config, edits: Edits, s: string)
    requires Editable(cfg, edits) && s in cfg && !Takes(way, s, Edited(View(shown, cfg), edits)[s])
    ensures Edited(cfg, KeptEdits(way, edits))[s] == cfg[s]
  {
    assert s !in edits;
  }

  lemma SavedAt(way: Way, shown: Shown, cfg: Config, edits: Edits, s: string)
    requires Editable(cfg, edits) && !Raises(way, cfg, Edited(View(shown, cfg), edits))
    ensures var saved, goal := Saved(way, cfg, Edited(View(shown, cfg), edits)), Edited(cfg, KeptEdits(way, edits));
            (s in saved <==> s in goal) && (s in saved ==> saved[s] == goal[s])
  {
    var body := Edited(View(shown, cfg), edits);
    if s in body {
      if Takes(way, s, body[s]) {
        SavedSection(way, shown, cfg, edits, s);
      } else if s in cfg {
        UntakenSection(way, shown, cfg, edits, s);
      }
    }
  }

  /** Saving an edited view applies the kept edits to the real configuration, and nothing else. */
  lemma SavingAppliesEdits(way: Way, shown: Shown, cfg: Config, edits: Edits)
    requires Editable(cfg, edits)
    ensures !Raises(way, cfg, Edited(View(shown, cfg), edits))
    ensures Saved(way, cfg, Edited(View(shown, cfg), edits)) == Edited(cfg, KeptEdits(way, edits))
  {
    EditedViewNeverRaises(way, shown, cfg, edits);
    forall s: string {
      SavedAt(way, shown, cfg, edits, s);
    }
    SameConfig(Saved(way, cfg, Edited(View(shown, cfg), edits)), Edited(cfg, KeptEdits(way, edits)));
  }

  lemma NothingKept(way: Way, base: map<string, Value>)
    ensures base + Kept(way, map[]) == base
  {
  }

  /** The view saved back unchanged leaves the configuration as it is, both ways. */
  lemma GetThenPut(way: Way, shown: Shown, cfg: Config)
    ensures !Raises(way, cfg, View(shown, cfg)) && Saved(way, cfg, View(shown, cfg)) == cfg
  {
    var none: Edits := map[];
    SavingAppliesEdits(way, shown, cfg, none);
    assert Edited(View(shown, cfg), none) == View(shown, cfg);
    assert Edited(cfg, KeptEdits(way, none)) == cfg;
  }

  ghost predicate Harmless(way: Way, cfg: Config, edits: Edits) {
    forall s, k :: s in edits && k in edits[s] && Drops(way, k, edits[s][k]) ==>
      k in Fields(cfg, s) && Fields(cfg, s)[k] == edits[s][k]
  }

  /**
    Saving an edited view equals applying the edits to the unmasked configuration exactly when the edits
    that a save drops, masks under sensitive names, would change nothing.
   */
  lemma EditsApplyExactly(way: Way, shown: Shown, cfg: Config, edits: Edits)
    requires Editable(cfg, edits)
    ensures var body := Edited(View(shown, cfg), edits);
            !Raises(way, cfg, body) && (Saved(way, cfg, body) == Edited(cfg, edits) <==> Harmless(way, cfg, edits))
  {
    SavingAppliesEdits(way, shown, cfg, edits);
    if Harmless(way, cfg, edits) {
      HarmlessIsEnough(way, cfg, edits);
    } else {
      DroppedEditShows(way, cfg, edits);
    }
  }

  lemma HarmlessIsEnough(way: Way, cfg: Config, edits: Edits)
    requires Harmless(way, cfg, edits)
    ensures Edited(cfg, KeptEdits(way, edits)) == Edited(cfg, edits)
  {
    var saved, goal := Edited(cfg, KeptEdits(way, edits)), Edited(cfg, edits);
    forall s ensures (s in saved <==> s in goal) && (s in saved ==> saved[s] == goal[s]) {
      if s in edits {
        HarmlessSection(way, cfg, edits, s);
      }
    }
  }

  lemma DroppedEditShows(way: Way, cfg: Config, edits: Edits)
    requires !Harmless(way, cfg, edits)
    ensures Edited(cfg, KeptEdits(way, edits)) != Edited(cfg, edits)
  {
    var s, k :| s in edits && k in edits[s] && Drops(way, k, edits[s][k]) &&
                !(k in Fields(cfg, s) && Fields(cfg, s)[k] == edits[s][k]);
    assert k !in Kept(way, edits[s]);
    var saved, goal := Fields(cfg, s) + Kept(way, edits[s]), Fields(cfg, s) + edits[s];
    assert k in goal && goal[k] == edits[s][k];
    assert k in saved ==> saved[k] == Fields(cfg, s)[k];
    assert Edited(cfg, KeptEdits(way, edits))[s] == Dict(saved) && Edited(cfg, edits)[s] == Dict(goal);
  }

  lemma HarmlessSection(way: Way, cfg: Config, edits: Edits, s: string)
    requires Harmless(way, cfg, edits) && s in edits
    ensures Fields(cfg, s) + Kept(way, edits[s]) == Fields(cfg, s) + edits[s]
  {
  }

  lemma MaskOverlay(shown: Shown, base: map<string, Value>, edits: map<string, Value>)
    ensures MaskedSection(shown, Dict(base + edits)).fields ==
            MaskedSection(shown, Dict(base)).fields + MaskedSection(shown, Dict(edits)).fields
  {
  }

  function ShownEdits(shown: Shown, edits: Edits): Edits {
    map s | s in edits :: MaskedSection(shown, Dict(edits[s])).fields
  }

  /** What is read after an edit is the view before with the edits on it, masked themselves. */
  lemma PutThenGet(shown: Shown, cfg: Config, edits: Edits)
    ensures View(shown, Edited(cfg, edits)) == Edited(View(shown, cfg), ShownEdits(shown, edits))
  {
    forall s: string {
      PutThenGetAt(shown, cfg, edits, s);
    }
    SameConfig(View(shown, Edited(cfg, edits)), Edited(View(shown, cfg), ShownEdits(shown, edits)));
  }

  lemma PutThenGetAt(shown: Shown, cfg: Config, edits: Edits, s: string)
    ensures var a, b := View(shown, Edited(cfg, edits)), Edited(View(shown, cfg), ShownEdits(shown, edits));
            (s in a <==> s in b) && (s in a ==> a[s] == b[s])
  {
    if s in edits {
      MaskOverlay(shown, Fields(cfg, s), edits[s]);
    }
  }

  // ---- the route's read with settings from elsewhere ----

  predicate ShowsSlider(cfg: Config, yamlSlider: Value) {
    "slider_auto_solve" !in cfg && yamlSlider.Dict? && Truthy(yamlSlider)
  }

  predicate ShowsRules(cfg: Config, yamlRules: Value) {
    && "auto_reply" in cfg && cfg["auto_reply"].Dict? && "custom_intent_rules" !in cfg["auto_reply"].fields
    && yamlRules.List? && Truthy(yamlRules)
  }

  /** What the route's read adds to the configuration, as edits. */
  function Injected(cfg: Config, yamlSlider: Value, yamlRules: Value): Edits {
    (if ShowsSlider(cfg, yamlSlider) then map["slider_auto_solve" := yamlSlider.fields] else map[]) +
    (if ShowsRules(cfg, yamlRules) then map["auto_reply" := map["custom_intent_rules" := yamlRules]] else map[])
  }

  /** The configuration with the settings from elsewhere put in, one after the other. */
  function WithYaml(cfg: Config, yamlSlider: Value, yamlRules: Value): Config {
    var c := if ShowsSlider(cfg, yamlSlider) then cfg["slider_auto_solve" := yamlSlider] else cfg;
    if ShowsRules(c, yamlRules)
    then c["auto_reply" := Dict(c["auto_reply"].fields["custom_intent_rules" := yamlRules])] else c
  }

  lemma InjectedReply(cfg: Config, yamlSlider: Value, yamlRules: Value)
    ensures var a, b := WithYaml(cfg, yamlSlider, yamlRules), Edited(cfg, Injected(cfg, yamlSlider, yamlRules));
            ("auto_reply" in a <==> "auto_reply" in b) && ("auto_reply" in a ==> a["auto_reply"] == b["auto_reply"])
  {
    if ShowsRules(cfg, yamlRules) {
      assert cfg["auto_reply"].fields["custom_intent_rules" := yamlRules] ==
             cfg["auto_reply"].fields + map["custom_intent_rules" := yamlRules];
    }
  }

  lemma InjectedElsewhere(cfg: Config, yamlSlider: Value, yamlRules: Value, s: string)
    requires s != "auto_reply"
    ensures var a, b := WithYaml(cfg, yamlSlider, yamlRules), Edited(cfg, Injected(cfg, yamlSlider, yamlRules));
            (s in a <==> s in b) && (s in a ==> a[s] == b[s])
  {
    if ShowsSlider(cfg, yamlSlider) {
      assert map[] + yamlSlider.fields == yamlSlider.fields;
    }
  }

  lemma InjectedIsEdit(cfg: Config, yamlSlider: Value, yamlRules: Value)
    ensures WithYaml(cfg, yamlSlider, yamlRules) == Edited(cfg, Injected(cfg, yamlSlider, yamlRules))
  {
    InjectedReply(cfg, yamlSlider, yamlRules);
    forall s | s != "auto_reply" {
      InjectedElsewhere(cfg, yamlSlider, yamlRules, s);
    }
    SameConfig(WithYaml(cfg, yamlSlider, yamlRules), Edited(cfg, Injected(cfg, yamlSlider, yamlRules)));
  }

  /** Every setting is still there, with its value. */
  ghost predicate Extends(after: Config, before: Config) {
    forall s :: s in before ==>
      && s in after
      && (if before[s].Dict? then after[s].Dict? && forall k :: k in before[s].fields ==>
                                    k in after[s].fields && after[s].fields[k] == before[s].fields[k]
          else after[s] == before[s])
  }

  /** Edits of allowed dictionary sections that only add settings. */
  ghost predicate OnlyNew(cfg: Config, edits: Edits) {
    && Editable(cfg, edits)
    && forall s, k :: s in edits && k in edits[s] ==> k !in Fields(cfg, s)
  }

  lemma NewOnlyAdds(cfg: Config, edits: Edits)
    requires OnlyNew(cfg, edits)
    ensures Extends(Edited(cfg, edits), cfg)
  {
    forall s | s in cfg && s in edits ensures Edited(cfg, edits)[s] == Dict(cfg[s].fields + edits[s]) {}
  }

  lemma NewViewIsSafe(way: Way, shown: Shown, cfg: Config, edits: Edits)
    requires OnlyNew(cfg, edits)
    ensures var body := View(shown, Edited(cfg, edits));
            && !Raises(way, cfg, body)
            && Saved(way, cfg, body) == Edited(cfg, KeptEdits(way, ShownEdits(shown, edits)))
            && Extends(Saved(way, cfg, body), cfg)
  {
    PutThenGet(shown, cfg, edits);
    SavingAppliesEdits(way, shown, cfg, ShownEdits(shown, edits));
    NewOnlyAdds(cfg, KeptEdits(way, ShownEdits(shown, edits)));
  }

  /** The route's view saved back changes no existing setting; it can only add those that it showed beside them. */
  lemma RouteViewIsSafe(way: Way, shown: Shown, cfg: Config, yamlSlider: Value, yamlRules: Value)
    ensures var edits := Injected(cfg, yamlSlider, yamlRules);
            var body := View(shown, Edited(cfg, edits));
            && !Raises(way, cfg, body)
            && Saved(way, cfg, body) == Edited(cfg, KeptEdits(way, ShownEdits(shown, edits)))
            && Extends(Saved(way, cfg, body), cfg)
  {
    NewViewIsSafe(way, shown, cfg, Injected(cfg, yamlSlider, yamlRules));
  }

  // ---- no run of saves puts a mask in the place of a secret ----

  /** No sensitive value looks like a mask. */
  ghost predicate NoMask(cfg: Config) {
    forall s, k :: s in cfg && k in Fields(cfg, s) ==> !ServiceDrops(k, Fields(cfg, s)[k])
  }

  datatype Request = Request(way: Way, body: Config)

  /** The stored configuration after one request, with any body at all; one that raises writes nothing. */
  ghost function AfterRequest(cfg: Config, r: Request): Config {
    if Raises(r.way, cfg, r.body) then cfg else Saved(r.way, cfg, r.body)
  }

  ghost function AfterRequests(cfg: Config, rs: seq<Request>): Config {
    if rs == [] then cfg else AfterRequest(AfterRequests(cfg, rs[..|rs| - 1]), rs[|rs| - 1])
  }

  /** A stored value comes from the configuration before or from a kept value of the body. */
  lemma ValueOrigin(cfg: Config, r: Request, s: string, k: string)
    requires k in Fields(AfterRequest(cfg, r), s)
    ensures var v := Fields(AfterRequest(cfg, r), s)[k];
            || (k in Fields(cfg, s) && Fields(cfg, s)[k] == v)
            || (k in Fields(r.body, s) && Fields(r.body, s)[k] == v && !Drops(r.way, k, v))
  {
    if !Raises(r.way, cfg, r.body) && s in r.body && Takes(r.way, s, r.body[s]) {
      assert s in r.body.Keys;
      assert !Fails(r.way, cfg, r.body, s);
    }
  }

  lemma RequestKeepsNoMask(cfg: Config, r: Request)
    requires NoMask(cfg)
    ensures NoMask(AfterRequest(cfg, r))
  {
    var after := AfterRequest(cfg, r);
    forall s, k | s in after && k in Fields(after, s) ensures !ServiceDrops(k, Fields(after, s)[k]) {
      ValueOrigin(cfg, r, s, k);
      if ServiceDrops(k, Fields(after, s)[k]) {
        MaskIsDropped(r.way, k, Fields(after, s)[k]);
      }
    }
  }

  /** Some request of the run carried the value for the key, and not as a mask. */
  ghost predicate Carried(rs: seq<Request>, s: string, k: string, v: Value) {
    exists i :: 0 <= i < |rs| && k in Fields(rs[i].body, s) && Fields(rs[i].body, s)[k] == v && !Drops(rs[i].way, k, v)
  }

  /**
    Over any run of saves, from views that may be stale or with bodies made up altogether, no mask takes
    the place of a secret: every sensitive value stored at the end is the one stored at the start or one
    that some request carried in clear.
   */
  lemma {:induction false} SecretsSurvive(cfg: Config, rs: seq<Request>, s: string, k: string)
    requires NoMask(cfg)
    ensures NoMask(AfterRequests(cfg, rs))
    ensures k in Fields(AfterRequests(cfg, rs), s) ==>
              var v := Fields(AfterRequests(cfg, rs), s)[k];
              (k in Fields(cfg, s) && Fields(cfg, s)[k] == v) || Carried(rs, s, k, v)
  {
    if rs != [] {
      var before, last := rs[..|rs| - 1], rs[|rs| - 1];
      SecretsSurvive(cfg, before, s, k);
      RequestKeepsNoMask(AfterRequests(cfg, before), last);
      if k in Fields(AfterRequests(cfg, rs), s) {
        var v := Fields(AfterRequests(cfg, rs), s)[k];
        ValueOrigin(AfterRequests(cfg, before), last, s, k);
        if Carried(before, s, k, v) {
          CarriedLonger(before, last, s, k, v);
        }
        assert rs == before + [last];
        assert rs[|before|] == last;
      }
    }
  }

  lemma CarriedLonger(before: seq<Request>, last: Request, s: string, k: string, v: Value)
    requires Carried(before, s, k, v)
    ensures Carried(before + [last], s, k, v)
  {
    var i :| 0 <= i < |before| && k in Fields(before[i].body, s) && Fields(before[i].body, s)[k] == v &&
        !Drops(before[i].way, k, v);
    assert (before + [last])[i] == before[i];
  }
}
