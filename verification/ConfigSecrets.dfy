/** What the masked view shows of a setting and what a save makes of it, by name and by value. */
module ConfigSecrets {
  import opened Json
  import opened Text
  import opened ConfigMask

  // ---- which names are sensitive ----

  /** The part begins at some position of the name. */
  predicate Occurs(key: string, part: string) {
    exists i :: 0 <= i <= |key| && IsPrefix(part, key[i..])
  }

  lemma {:induction false} ContainsExactly(s: string, part: string)
    ensures Contains(s, part) <==> Occurs(s, part)
  {
    assert s[0..] == s;
    if s != "" {
      ContainsExactly(s[1..], part);
      if Occurs(s, part) {
        var i :| 0 <= i <= |s| && IsPrefix(part, s[i..]);
        assert i > 0 ==> s[1..][i - 1..] == s[i..];
      }
      if Occurs(s[1..], part) {
        var i :| 0 <= i <= |s| - 1 && IsPrefix(part, s[1..][i..]);
        assert s[1..][i..] == s[i + 1..];
      }
    }
  }

  lemma OccursBetween(a: string, part: string, b: string)
    ensures Occurs(a + (part + b), part)
  {
    var s := a + (part + b);
    assert s[|a|..] == part + b;
    assert (part + b)[..|part|] == part;
    assert IsPrefix(part, s[|a|..]);
  }

  /** A name is sensitive exactly when one of five parts occurs in it. */
  predicate NamesSecret(key: string) {
    || Occurs(key, "app_secret") || Occurs(key, "api_key") || Occurs(key, "access_key_secret")
    || Occurs(key, "mch_secret") || Occurs(key, "webhook")
  }

  lemma SensitiveExactly(key: string)
    ensures Sensitive(key) <==> NamesSecret(key)
  {
    forall i | 0 <= i < |SECRETS| ensures Contains(key, SECRETS[i]) <==> Occurs(key, SECRETS[i]) {
      ContainsExactly(key, SECRETS[i]);
    }
    assert SECRETS[0] == "app_secret" && SECRETS[1] == "api_key" && SECRETS[2] == "access_key_secret";
    assert SECRETS[3] == "mch_secret" && SECRETS[4] == "webhook";
  }

  // ---- what is shown ----

  /** The section is there and has the setting. */
  predicate Has(cfg: Config, s: string, k: string, v: Value) {
    s in cfg && cfg[s].Dict? && k in cfg[s].fields && cfg[s].fields[k] == v
  }

  /** Of a long secret the view shows the first four characters and four stars. */
  lemma LongSecretIsCut(shown: Shown, cfg: Config, s: string, k: string, text: string)
    requires Has(cfg, s, k, Str(text)) && NamesSecret(k) && |text| > 4
    ensures Has(View(shown, cfg), s, k, Str(text[..4] + "****"))
  {
    SensitiveExactly(k);
  }

  /** A secret that is no text is cut in the same way. */
  lemma OtherSecretIsCut(shown: Shown, cfg: Config, s: string, k: string, v: Value)
    requires Has(cfg, s, k, v) && NamesSecret(k) && !v.Str? && Truthy(v) && |shown(v)| > 4
    ensures Has(View(shown, cfg), s, k, Str(shown(v)[..4] + "****"))
  {
    SensitiveExactly(k);
  }

  /** A short secret keeps all its characters in front of the stars; an empty one is shown empty. */
  lemma ShortSecretIsShown(shown: Shown, cfg: Config, s: string, k: string, text: string)
    requires Has(cfg, s, k, Str(text)) && NamesSecret(k) && |text| <= 4
    ensures Has(View(shown, cfg), s, k, Str(if text == "" then "" else text + "****"))
  {
    SensitiveExactly(k);
  }

  /** Other settings, and sections that are no dictionaries, are shown as they are. */
  lemma OtherSettingsAreShown(shown: Shown, cfg: Config, s: string, k: string, v: Value)
    ensures Has(cfg, s, k, v) && !NamesSecret(k) ==> Has(View(shown, cfg), s, k, v)
    ensures s in cfg && !cfg[s].Dict? ==> s in View(shown, cfg) && View(shown, cfg)[s] == cfg[s]
    ensures s in View(shown, cfg) <==> s in cfg
  {
    SensitiveExactly(k);
  }

  function WithSetting(cfg: Config, s: string, k: string, v: Value): Config {
    cfg[s := Dict(Fields(cfg, s)[k := v])]
  }

  /** Two long secrets give the same view of the whole configuration exactly when they begin alike. */
  lemma LongSecretsLookAlike(shown: Shown, cfg: Config, s: string, k: string, a: string, b: string)
    requires NamesSecret(k) && |a| > 4 && |b| > 4
    ensures View(shown, WithSetting(cfg, s, k, Str(a))) == View(shown, WithSetting(cfg, s, k, Str(b)))
            <==> a[..4] == b[..4]
  {
    SensitiveExactly(k);
    var x, y := WithSetting(cfg, s, k, Str(a)), WithSetting(cfg, s, k, Str(b));
    assert x.Keys == y.Keys;
    assert SameShown(shown, k, Str(a), Str(b)) <==> a[..4] == b[..4];
    assert x[s].fields[k] == Str(a) && y[s].fields[k] == Str(b);
    if a[..4] == b[..4] {
      assert SameShownSection(shown, x[s], y[s]);
    }
    ViewShowsExactly(shown, x, y);
  }

  /** The view of the route. */
  function RouteView(shown: Shown, cfg: Config, yamlSlider: Value, yamlRules: Value): Config {
    View(shown, Edited(cfg, Injected(cfg, yamlSlider, yamlRules)))
  }

  /** The route shows the slider settings of the YAML file if none are stored. */
  lemma YamlSliderIsShown(shown: Shown, cfg: Config, yamlSlider: Value, yamlRules: Value, k: string)
    requires yamlSlider.Dict? && k in yamlSlider.fields && !NamesSecret(k)
    ensures "slider_auto_solve" !in cfg ==>
              Has(RouteView(shown, cfg, yamlSlider, yamlRules), "slider_auto_solve", k, yamlSlider.fields[k])
    ensures "slider_auto_solve" in cfg ==>
              RouteView(shown, cfg, yamlSlider, yamlRules)["slider_auto_solve"]
              == View(shown, cfg)["slider_auto_solve"]
  {
    SensitiveExactly(k);
    assert "slider_auto_solve" !in cfg ==> "slider_auto_solve" in Injected(cfg, yamlSlider, yamlRules);
    assert "slider_auto_solve" in cfg ==> "slider_auto_solve" !in Injected(cfg, yamlSlider, yamlRules);
  }

  /** It shows the rules of the YAML file if there are automatic-reply settings without rules. */
  lemma YamlRulesAreShown(shown: Shown, cfg: Config, yamlSlider: Value, yamlRules: Value)
    requires yamlRules.List? && yamlRules.items != []
    requires "auto_reply" in cfg && cfg["auto_reply"].Dict?
    ensures "custom_intent_rules" !in cfg["auto_reply"].fields ==>
              Has(RouteView(shown, cfg, yamlSlider, yamlRules), "auto_reply", "custom_intent_rules", yamlRules)
    ensures "custom_intent_rules" in cfg["auto_reply"].fields ==>
              RouteView(shown, cfg, yamlSlider, yamlRules)["auto_reply"] == View(shown, cfg)["auto_reply"]
  {
    RulesAreNoSecret();
    assert "custom_intent_rules" !in cfg["auto_reply"].fields ==>
        "auto_reply" in Injected(cfg, yamlSlider, yamlRules);
  }

  lemma RulesAreNoSecret()
    ensures !Sensitive("custom_intent_rules")
  {
    SensitiveExactly("custom_intent_rules");
    NotIn("custom_intent_rules", "app_secret");
    NotIn("custom_intent_rules", "api_key");
    NotIn("custom_intent_rules", "access_key_secret");
    NotIn("custom_intent_rules", "mch_secret");
    NotIn("custom_intent_rules", "webhook");
  }

  /** A part does not occur where its first and its last character are never both in place. */
  lemma NotIn(key: string, part: string)
    requires part != ""
    requires forall i :: 0 <= i <= |key| - |part| ==> key[i] != part[0] || key[i + |part| - 1] != part[|part| - 1]
    ensures !Occurs(key, part)
  {
    forall i | 0 <= i <= |key| ensures !IsPrefix(part, key[i..]) {
      PrefixEnds(part, key[i..]);
    }
  }

  lemma PrefixEnds(part: string, s: string)
    requires part != ""
    ensures IsPrefix(part, s) ==> |part| <= |s| && s[0] == part[0] && s[|part| - 1] == part[|part| - 1]
  {
    if IsPrefix(part, s) {
      assert s[..|part|][0] == s[0] && s[..|part|][|part| - 1] == s[|part| - 1];
    }
  }

  // ---- what is saved ----

  /** The sections that can be saved. */
  predicate CanBeSaved(s: string) {
    || s == "xianguanjia" || s == "ai" || s == "oss" || s == "auto_reply" || s == "auto_publish"
    || s == "order_reminder" || s == "pricing" || s == "delivery" || s == "notifications" || s == "store"
    || s == "auto_price_modify" || s == "cookie_cloud" || s == "slider_auto_solve" || s == "sensitive_words"
  }

  lemma SavedSectionIs(way: Way, cfg: Config, body: Config, s: string)
    requires !Raises(way, cfg, body) && s in body && Takes(way, s, body[s])
    ensures SectionAfter(way, cfg, s, body[s]).Success?
    ensures s in Saved(way, cfg, body) && Saved(way, cfg, body)[s] == SectionAfter(way, cfg, s, body[s]).value
  {
    assert s in body.Keys && !Fails(way, cfg, body, s);
  }

  lemma SavedFields(way: Way, cfg: Config, body: Config, s: string)
    requires !Raises(way, cfg, body) && s in body && CanBeSaved(s) && body[s].Dict?
    ensures Fields(Saved(way, cfg, body), s) == Fields(cfg, s) + Kept(way, body[s].fields)
  {
    SavedSectionIs(way, cfg, body, s);
  }

  /** The setting in the configuration after a save that does not raise is what this value says. */
  ghost predicate SavesAs(way: Way, cfg: Config, body: Config, s: string, k: string, v: Value) {
    !Raises(way, cfg, body) ==>
      k in Fields(Saved(way, cfg, body), s) && Fields(Saved(way, cfg, body), s)[k] == v
  }

  /** The setting stays what it was, or missing. */
  ghost predicate Stays(way: Way, cfg: Config, body: Config, s: string, k: string) {
    !Raises(way, cfg, body) ==>
      var after, before := Fields(Saved(way, cfg, body), s), Fields(cfg, s);
      (k in after <==> k in before) && (k in after ==> after[k] == before[k])
  }

  /** A body with the setting in a section that can be saved. */
  predicate Sends(body: Config, s: string, k: string, v: Value) {
    CanBeSaved(s) && Has(body, s, k, v)
  }

  lemma SentExactly(way: Way, cfg: Config, body: Config, s: string, k: string, v: Value)
    requires Sends(body, s, k, v)
    ensures !Drops(way, k, v) ==> SavesAs(way, cfg, body, s, k, v)
    ensures Drops(way, k, v) ==> Stays(way, cfg, body, s, k)
  {
    if !Raises(way, cfg, body) {
      SavedFields(way, cfg, body, s);
    }
  }

  lemma NotUnderscored(k: string)
    ensures IsPrefix("__", k) <==> |k| >= 2 && k[0] == '_' && k[1] == '_'
  {
    if |k| >= 2 {
      assert k[..2] == [k[0], k[1]];
    }
  }

  lemma EndsOtherwise(text: string)
    requires text != "" && text[|text| - 1] != '*'
    ensures !IsSuffix(MASK, text)
  {
    if |text| >= 4 {
      assert text[|text| - 4..][3] == text[|text| - 1];
    }
  }

  /** A value without four stars in it is saved under every name; the route wants it not to begin with underscores. */
  lemma ClearValueIsSaved(way: Way, cfg: Config, body: Config, s: string, k: string, v: Value)
    requires Sends(body, s, k, v) && (v.Str? ==> !Occurs(v.s, "****"))
    requires way.ByRoute? ==> |k| < 2 || k[0] != '_' || k[1] != '_'
    ensures SavesAs(way, cfg, body, s, k, v)
  {
    SentExactly(way, cfg, body, s, k, v);
    if v.Str? {
      ContainsExactly(v.s, MASK);
    }
    NotUnderscored(k);
  }

  /** A mask under a sensitive name keeps the value before, both ways. */
  lemma MaskKeepsOld(way: Way, cfg: Config, body: Config, s: string, k: string, front: string)
    requires Sends(body, s, k, Str(front + "****")) && NamesSecret(k)
    ensures Stays(way, cfg, body, s, k)
  {
    SentExactly(way, cfg, body, s, k, Str(front + "****"));
    SensitiveExactly(k);
    assert (front + "****")[|front|..] == "****";
    MaskIsDropped(way, k, Str(front + "****"));
  }

  /** Stars elsewhere in a secret are saved by the service and keep the value before by the route. */
  lemma InnerStars(cfg: Config, body: Config, s: string, k: string, front: string, back: string)
    requires Sends(body, s, k, Str(front + ("****" + back))) && NamesSecret(k)
    requires back != "" && back[|back| - 1] != '*'
    ensures SavesAs(ByService, cfg, body, s, k, Str(front + ("****" + back)))
    ensures Stays(ByRoute, cfg, body, s, k)
  {
    var text := front + ("****" + back);
    SentExactly(ByService, cfg, body, s, k, Str(text));
    SentExactly(ByRoute, cfg, body, s, k, Str(text));
    OccursBetween(front, MASK, back);
    ContainsExactly(text, MASK);
    SensitiveExactly(k);
    SensitiveLowered(k);
    EndsOtherwise(text);
  }

  /** Under a name that is not sensitive in any case, stars are saved like anything else. */
  lemma StarsUnderOtherNames(way: Way, cfg: Config, body: Config, s: string, k: string, v: Value)
    requires Sends(body, s, k, v) && !NamesSecret(k) && !NamesSecret(Lower(k))
    requires way.ByRoute? ==> |k| < 2 || k[0] != '_' || k[1] != '_'
    ensures SavesAs(way, cfg, body, s, k, v)
  {
    SentExactly(way, cfg, body, s, k, v);
    SensitiveExactly(k);
    SensitiveExactly(Lower(k));
    NotUnderscored(k);
  }

  /** A mask under a name that is sensitive only when lowered: saved by the service, ignored by the route. */
  lemma UpperCaseNames(cfg: Config, body: Config, s: string, k: string, front: string)
    requires Sends(body, s, k, Str(front + "****")) && !NamesSecret(k) && NamesSecret(Lower(k))
    ensures SavesAs(ByService, cfg, body, s, k, Str(front + "****"))
    ensures Stays(ByRoute, cfg, body, s, k)
  {
    SentExactly(ByService, cfg, body, s, k, Str(front + "****"));
    SentExactly(ByRoute, cfg, body, s, k, Str(front + "****"));
    SensitiveExactly(k);
    SensitiveExactly(Lower(k));
    SuffixIsContained(front, MASK);
  }

  /** Names that begin with two underscores belong to the page: the route ignores them. */
  lemma UnderscoredNames(cfg: Config, body: Config, s: string, rest: string, v: Value)
    requires Sends(body, s, "__" + rest, v)
    ensures Stays(ByRoute, cfg, body, s, "__" + rest)
  {
    SentExactly(ByRoute, cfg, body, s, "__" + rest, v);
    assert ("__" + rest)[..2] == "__";
  }

  /** What the body does not have, and what it has for a section that cannot be saved, stays. */
  lemma UnsentStays(way: Way, cfg: Config, body: Config, s: string, k: string)
    requires !Raises(way, cfg, body)
    ensures s !in body || !CanBeSaved(s) ==>
              (s in Saved(way, cfg, body) <==> s in cfg) && (s in cfg ==> Saved(way, cfg, body)[s] == cfg[s])
    ensures s in body && body[s].Dict? && k !in body[s].fields ==> Stays(way, cfg, body, s, k)
  {
    if s in body && body[s].Dict? && CanBeSaved(s) {
      SavedFields(way, cfg, body, s);
    }
  }

  /** A section that is no dictionary replaces the one before in the service, and is ignored by the route. */
  lemma OtherSections(cfg: Config, body: Config, s: string)
    requires s in body && CanBeSaved(s) && !body[s].Dict?
    ensures !Raises(ByService, cfg, body) ==>
              s in Saved(ByService, cfg, body) && Saved(ByService, cfg, body)[s] == body[s]
    ensures !Raises(ByRoute, cfg, body) ==>
              var after := Saved(ByRoute, cfg, body);
              (s in after <==> s in cfg) && (s in after ==> after[s] == cfg[s])
  {
  }

  /**
    A save raises exactly when a section that it merges holds something else than settings: the service if it
    keeps a setting for the section, the route if what the section holds is truthy.
   */
  lemma SaveRaisesExactly(way: Way, cfg: Config, body: Config)
    ensures Raises(way, cfg, body) <==>
            exists s :: s in body && CanBeSaved(s) && body[s].Dict? && s in cfg && !cfg[s].Dict? &&
              (match way
               case ByService => Kept(way, body[s].fields) != map[]
               case ByRoute => Truthy(cfg[s]))
  {
    forall s | s in body
      ensures Fails(way, cfg, body, s) <==>
        CanBeSaved(s) && body[s].Dict? && s in cfg && !cfg[s].Dict? &&
        (match way
         case ByService => Kept(way, body[s].fields) != map[]
         case ByRoute => Truthy(cfg[s]))
    {
    }
  }
}
