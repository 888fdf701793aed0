/** The validation loops of `validate_policy_v2` and `validate_policy_v3`, proved against the
    specifications of module PolicyContract. */
module PolicyValidator {
  import opened Wrappers
  import opened Ordering
  import opened Reordering
  import opened Base64Url
  import opened PolicyNames
  import opened PolicySchedules
  import opened PolicyContract
  import opened PolicyContent
  import opened PolicyAcceptance

  function Members(xs: seq<string>): set<string> { set x | x in xs }

  lemma {:induction false} SetSize(xs: seq<string>)
    ensures |Members(xs)| <= |xs|
    ensures |Members(xs)| == |xs| <==> Distinct(xs)
  {
    if xs != [] {
      var n := |xs| - 1;
      var rest := xs[..n];
      SetSize(rest);
      assert xs == rest + [xs[n]];
      assert Members(xs) == Members(rest) + {xs[n]};
      if xs[n] in rest {
        var i :| 0 <= i < n && rest[i] == xs[n];
        assert Itself<string>()(xs[i]) == Itself<string>()(xs[n]);
      }
      DistinctAppend(Itself<string>(), rest, xs[n]);
    }
  }

  lemma DistinctAppend<T(!new), K(!new)>(key: T -> K, xs: seq<T>, x: T)
    ensures DistinctBy(key, xs + [x]) <==> DistinctBy(key, xs) && forall y :: y in xs ==> key(y) != key(x)
  {
    var all := xs + [x];
    assert all[|xs|] == x && forall i :: 0 <= i < |xs| ==> all[i] == xs[i];
    if DistinctBy(key, all) {
      forall y | y in xs ensures key(y) != key(x) {
        var i :| 0 <= i < |xs| && xs[i] == y;
        assert key(all[i]) != key(all[|xs|]);
      }
      forall i, j | 0 <= i < j < |xs| ensures key(xs[i]) != key(xs[j]) {
        assert key(all[i]) != key(all[j]);
      }
    }
  }

  ghost function KeysOf<T, K>(key: T -> K, xs: seq<T>): set<K> { set x | x in xs :: key(x) }

  /** Reading one item more: the checks so far, the distinct keys so far, and the keys seen. */
  lemma PrefixStep<T(!new), K(!new)>(check: T -> bool, key: T -> K, xs: seq<T>, i: nat)
    requires i < |xs|
    ensures All(check, xs[..i + 1]) <==> All(check, xs[..i]) && check(xs[i])
    ensures DistinctBy(key, xs[..i + 1]) <==> DistinctBy(key, xs[..i]) && key(xs[i]) !in KeysOf(key, xs[..i])
    ensures KeysOf(key, xs[..i + 1]) == KeysOf(key, xs[..i]) + {key(xs[i])}
    ensures All(check, xs) ==> All(check, xs[..i + 1])
    ensures DistinctBy(key, xs) ==> DistinctBy(key, xs[..i + 1])
  {
    assert xs[..i + 1] == xs[..i] + [xs[i]];
    DistinctAppend(key, xs[..i], xs[i]);
    assert forall x :: x in xs[..i + 1] <==> x in xs[..i] || x == xs[i];
  }

  lemma MapPrefix<T, U>(f: T -> U, xs: seq<T>, i: nat)
    requires i < |xs|
    ensures Map(f, xs[..i + 1]) == Map(f, xs[..i]) + [f(xs[i])]
    ensures Map(f, xs)[..i] == Map(f, xs[..i]) && Map(f, xs)[..i + 1] == Map(f, xs[..i + 1])
    ensures Map(f, xs)[i] == f(xs[i])
  {
  }

  /** `_package_list` and `_identifier_list`. */
  method NameList(ok: string -> bool, most: nat, value: seq<string>) returns (r: Result<seq<string>>)
    ensures r.Ok? <==> NamesOk(ok, most, value)
    ensures r.Ok? ==> r.value == Sorted(value)
  {
    if |value| > most {
      return Err;
    }
    var names: seq<string> := [];
    for i := 0 to |value|
      invariant names == value[..i] && All(ok, names)
    {
      if !ok(value[i]) {
        return Err;
      }
      names := names + [value[i]];
    }
    assert names == value;
    SetSize(names);
    if |names| != |Members(names)| {
      return Err;
    }
    r := Ok(Sorted(names));
  }

  method OptionalNameList(most: nat, value: Option<seq<string>>) returns (r: Result<Option<seq<string>>>)
    ensures r.Ok? <==> OptionalNamesOk(most, value)
    ensures r.Ok? ==> r.value == SortedOption(value)
  {
    if value.None? {
      return Ok(None);
    }
    var names := NameList(Package(), most, value.value);
    r := if names.Err? then Err else Ok(Some(names.value));
  }

  lemma MembersWithin(xs: seq<string>, ys: seq<string>)
    ensures Members(xs) <= Members(ys) <==> Within(xs, ys)
  {
    if Members(xs) <= Members(ys) {
      forall x | x in xs ensures x in ys {
        assert x in Members(xs);
      }
    }
  }

  method CheckMode(emergency: seq<string>, m: Mode) returns (r: Result<Mode>)
    ensures r.Ok? <==> ModeOk(emergency, m)
    ensures r.Ok? ==> r.value == NormalMode()(m)
  {
    var allowed := NameList(Package(), MAX_PACKAGES_PER_LIST, m.allowed);
    var blocked := NameList(Package(), MAX_PACKAGES_PER_LIST, m.blocked);
    var lockTask := NameList(Package(), MAX_PACKAGES_PER_LIST, m.lockTask);
    var restrictions := NameList(Identifier(), MAX_CAPABILITIES, m.restrictions);
    if !IsIdentifier(m.id) || allowed.Err? || blocked.Err? || lockTask.Err? || restrictions.Err? {
      return Err;
    }
    if Members(m.allowed) * Members(m.blocked) != {} {
      ghost var x :| x in Members(m.allowed) * Members(m.blocked);
      return Err;
    }
    assert forall x :: x in m.allowed ==> x !in m.blocked by {
      forall x | x in m.allowed ensures x !in m.blocked {
        assert x !in Members(m.allowed) * Members(m.blocked);
      }
    }
    MembersWithin(emergency, m.allowed);
    MembersWithin(m.lockTask, m.allowed);
    if !(Members(emergency) <= Members(m.allowed)) || !(Members(m.lockTask) <= Members(m.allowed)) {
      return Err;
    }
    r := Ok(m.(allowed := allowed.value, blocked := blocked.value, lockTask := lockTask.value,
               restrictions := restrictions.value));
  }

  /** The mode loop. */
  method ValidateModes(emergency: seq<string>, raw: seq<Mode>) returns (r: Result<seq<Mode>>)
    ensures r.Ok? <==> ModesOk(emergency, raw)
    ensures r.Ok? ==> r.value == Map(NormalMode(), raw) && forall i :: 0 <= i < |raw| ==> ModeKept(raw[i], r.value[i])
  {
    if !(1 <= |raw| <= MAX_MODES) {
      return Err;
    }
    var modes: seq<Mode> := [];
    var modeIds: set<string> := {};
    for i := 0 to |raw|
      invariant modes == Map(NormalMode(), raw[..i]) && modeIds == KeysOf(ModeId(), raw[..i])
      invariant All(ModeCheck(emergency), raw[..i]) && DistinctBy(ModeId(), raw[..i])
    {
      PrefixStep(ModeCheck(emergency), ModeId(), raw, i);
      MapPrefix(NormalMode(), raw, i);
      var mode := CheckMode(emergency, raw[i]);
      if mode.Err? || raw[i].id in modeIds {
        return Err;
      }
      modeIds := modeIds + {raw[i].id};
      modes := modes + [mode.value];
    }
    assert raw[..|raw|] == raw;
    forall i | 0 <= i < |raw| ensures ModeKept(raw[i], modes[i]) {
      NormalModeKeeps(raw[i]);
    }
    r := Ok(modes);
  }

  lemma CommonMeans(c: Common)
    ensures ValidatedCommon(c).Ok? <==> CommonMeets(c)
    ensures ValidatedCommon(c).Ok? ==> CommonKept(c, None, ValidatedCommon(c).value)
  {
    CommonExactly(c);
    if CommonOk(c) {
      NormalCommonKeeps(c);
    }
  }

  /** `validate_policy_v2` */
  method ValidatePolicyV2(c: Common) returns (r: Result<Common>)
    ensures r == ValidatedCommon(c) && (r.Ok? <==> CommonMeets(c))
    ensures r.Ok? ==> CommonKept(c, None, r.value)
  {
    CommonMeans(c);
    var emergency := NameList(Package(), MAX_PACKAGES_PER_LIST, c.emergency);
    var capabilities := NameList(Identifier(), MAX_CAPABILITIES, c.capabilities);
    if emergency.Err? || c.emergency == [] || capabilities.Err? {
      return Err;
    }
    var modes := ValidateModes(c.emergency, c.modes);
    if modes.Err? || !IsIdentifier(c.defaultMode) || c.defaultMode !in Ids(c.modes) {
      return Err;
    }
    var schedules := ValidateSchedules(c.schedules, Ids(c.modes));
    if schedules.Err? || !(300 <= c.refresh <= 604_800) || !(1 <= c.minimumDpc <= MAX_INT) {
      return Err;
    }
    r := Ok(c.(emergency := emergency.value, capabilities := capabilities.value,
               modes := Sort(ByKey(ModeId()), modes.value), schedules := schedules.value));
  }

  method CheckRule(u: Unicode, rule: Rule) returns (r: Result<Rule>)
    ensures r.Ok? <==> RuleCheck(u)(rule)
    ensures r.Ok? ==> r.value == NormalRule(u)(rule)
  {
    var domain := NormalDomain(u, rule.domain);
    if !IsIdentifier(rule.id) || domain.None? || !(1 <= |rule.reason| <= 256) || !AllPrintable(u, rule.reason) {
      return Err;
    }
    r := Ok(rule.(domain := domain.value));
  }

  ghost predicate RulesSoFar(u: Unicode, raw: seq<Rule>, i: nat)
    requires i <= |raw|
  {
    && All(RuleCheck(u), raw[..i]) && DistinctBy(RuleId(), raw[..i])
    && DistinctBy(RuleTarget(), Map(NormalRule(u), raw[..i]))
  }

  lemma RulesStep(u: Unicode, raw: seq<Rule>, i: nat)
    requires i < |raw| && RulesSoFar(u, raw, i)
    ensures RulesSoFar(u, raw, i + 1)
       <==> RuleCheck(u)(raw[i]) && raw[i].id !in KeysOf(RuleId(), raw[..i])
            && RuleTarget()(NormalRule(u)(raw[i])) !in KeysOf(RuleTarget(), Map(NormalRule(u), raw[..i]))
    ensures RulesSoFar(u, raw, |raw|) ==> RulesSoFar(u, raw, i + 1)
    ensures KeysOf(RuleId(), raw[..i + 1]) == KeysOf(RuleId(), raw[..i]) + {raw[i].id}
    ensures KeysOf(RuleTarget(), Map(NormalRule(u), raw[..i + 1]))
         == KeysOf(RuleTarget(), Map(NormalRule(u), raw[..i])) + {RuleTarget()(NormalRule(u)(raw[i]))}
    ensures Map(NormalRule(u), raw[..i + 1]) == Map(NormalRule(u), raw[..i]) + [NormalRule(u)(raw[i])]
  {
    PrefixStep(RuleCheck(u), RuleId(), raw, i);
    MapPrefix(NormalRule(u), raw, i);
    var mapped := Map(NormalRule(u), raw);
    PrefixStep((r: Rule) => true, RuleTarget(), mapped, i);
    assert raw[..|raw|] == raw;
  }

  /** The web rule loop: identifiers and normalised targets must be new. */
  method ValidateRules(u: Unicode, raw: seq<Rule>) returns (r: Result<seq<Rule>>)
    ensures r.Ok? <==> RulesOk(u, raw)
    ensures r.Ok? ==> r.value == NormalRules(u, raw)
  {
    assert raw[..|raw|] == raw;
    if |raw| > MAX_RULES {
      return Err;
    }
    var rules: seq<Rule> := [];
    var seen: set<(string, Action)> := {};
    var ids: set<string> := {};
    for i := 0 to |raw|
      invariant RulesSoFar(u, raw, i) && rules == Map(NormalRule(u), raw[..i])
      invariant ids == KeysOf(RuleId(), raw[..i]) && seen == KeysOf(RuleTarget(), rules)
    {
      RulesStep(u, raw, i);
      var rule := CheckRule(u, raw[i]);
      if rule.Err? || raw[i].id in ids || (rule.value.domain, rule.value.action) in seen {
        return Err;
      }
      seen := seen + {(rule.value.domain, rule.value.action)};
      ids := ids + {raw[i].id};
      rules := rules + [rule.value];
    }
    r := Ok(Sort(ByKey(RuleId()), rules));
  }

  /** `_validate_approved_applications` */
  method ValidateApplications(u: Unicode, raw: seq<App>) returns (r: Result<seq<App>>)
    ensures r.Ok? <==> AppsOk(u, raw)
    ensures r.Ok? ==> r.value == NormalApps(u, raw)
  {
    assert raw[..|raw|] == raw;
    if !(1 <= |raw| <= 256) {
      return Err;
    }
    var applications: seq<App> := [];
    var seenUuids: set<string> := {};
    var seenPackages: set<string> := {};
    for i := 0 to |raw|
      invariant applications == Map(NormalApp(u), raw[..i])
      invariant seenUuids == KeysOf(AppUuid(), raw[..i]) && seenPackages == KeysOf(AppPackage(), raw[..i])
      invariant All(AppCheck(u), raw[..i]) && DistinctBy(AppUuid(), raw[..i]) && DistinctBy(AppPackage(), raw[..i])
    {
      var app := raw[i];
      PrefixStep(AppCheck(u), AppUuid(), raw, i);
      PrefixStep(AppCheck(u), AppPackage(), raw, i);
      MapPrefix(NormalApp(u), raw, i);
      if !IsUuid4(app.uuid) || app.uuid in seenUuids {
        return Err;
      }
      if !BoundedText(u, app.name, 120) || !IsPackage(app.package) || app.package in seenPackages {
        return Err;
      }
      seenUuids := seenUuids + {app.uuid};
      seenPackages := seenPackages + {app.package};
      applications := applications + [app.(name := Strip(u.space, app.name))];
    }
    r := Ok(Sort(ByKey(AppPackage()), applications));
  }

  method ValidateScreenAndWeb(u: Unicode, p: Policy) returns (r: Result<(ScreenTime, WebFilter)>)
    ensures r.Ok? <==> ScreenOk(p.screen, Ids(p.common.modes)) && WebOk(u, p.web)
    ensures r.Ok? ==> r.value == (NormalScreen(p.screen), NormalWeb(u, p.web))
  {
    var targets := OptionalNameList(MAX_PACKAGES_PER_LIST, p.screen.targets);
    if !(1 <= p.screen.limit <= 1440) || !(0 <= p.screen.reset <= 1439)
       || p.screen.exhausted !in Ids(p.common.modes) || targets.Err? {
      return Err;
    }
    var browsers := OptionalNameList(MAX_BROWSERS, p.web.browsers);
    var rules := ValidateRules(u, p.web.rules);
    if browsers.Err? || rules.Err? {
      return Err;
    }
    r := Ok((p.screen.(targets := targets.value), p.web.(rules := rules.value, browsers := browsers.value)));
  }

  method ValidateOptionalLists(u: Unicode, p: Policy) returns (r: Result<(Option<seq<App>>, Option<AppControls>)>)
    ensures r.Ok? <==> (p.apps.Some? ==> AppsOk(u, p.apps.value))
                       && (p.appControls.Some? ==> AppControlsOk(p.appControls.value))
    ensures r.Ok? ==> r.value.0 == match p.apps { case None => None case Some(a) => Some(NormalApps(u, a)) }
    ensures r.Ok? ==> r.value.1 == match p.appControls { case None => None case Some(c) => Some(NormalAppControls(c)) }
  {
    var apps: Option<seq<App>> := None;
    if p.apps.Some? {
      var checked := ValidateApplications(u, p.apps.value);
      if checked.Err? {
        return Err;
      }
      apps := Some(checked.value);
    }
    var controls: Option<AppControls> := None;
    if p.appControls.Some? {
      var sharing := p.appControls.value.sharing;
      var names := NameList(Package(), MAX_PACKAGES_PER_LIST, if sharing.Some? then sharing.value else []);
      if names.Err? {
        return Err;
      }
      controls := Some(p.appControls.value.(sharing := Some(names.value)));
    }
    r := Ok((apps, controls));
  }

  /** The rest of the normal form, once the sections with lists are done. */
  function Assemble(u: Unicode, p: Policy, common: Common, screen: ScreenTime, web: WebFilter,
                    apps: Option<seq<App>>, controls: Option<AppControls>): Policy {
    p.(schemaVersion := POLICY_SCHEMA_VERSION,
       common := common.(capabilities := Sorted(Closure(common.capabilities, p.settings))),
       screen := screen, web := web, apps := apps, appControls := controls,
       deviceUse := match p.deviceUse case None => None case Some(d) => Some(NormalDeviceUse(u, d)),
       notes := match p.notes case None => None case Some(n) => Some(NormalNotes(u, n)),
       description := match p.description case None => None case Some(d) => Some(Strip(u.space, d)))
  }

  /** The checks that give back nothing new. */
  predicate RestOk(u: Unicode, p: Policy) {
    && PlainOk(p)
    && (p.deviceUse.Some? ==> DeviceUseOk(u, p.deviceUse.value))
    && (p.notes.Some? ==> NotesOk(u, p.notes.value))
    && IdentityOk(u, p.code, p.description) && CrossOk(p)
  }

  lemma SectionsSplit(u: Unicode, p: Policy)
    ensures SectionsOk(u, p) && CrossOk(p)
       <==> && ScreenOk(p.screen, Ids(p.common.modes)) && WebOk(u, p.web)
            && (p.apps.Some? ==> AppsOk(u, p.apps.value))
            && (p.appControls.Some? ==> AppControlsOk(p.appControls.value)) && RestOk(u, p)
  {
  }

  lemma ValidatedMeans(u: Unicode, p: Policy)
    ensures Validated(u, p).Ok? <==> Meets(u, p)
    ensures Validated(u, p).Ok? ==> Keeps(u, p, Validated(u, p).value)
  {
    AcceptedExactly(u, p);
    if Validated(u, p).Ok? {
      ValidationKeeps(u, p);
    }
  }

  /** `validate_policy_v3`: what meets the requirements is accepted, and kept. */
  method ValidatePolicyV3(u: Unicode, p: Policy) returns (r: Result<Policy>)
    ensures r == Validated(u, p) && (r.Ok? <==> Meets(u, p))
    ensures r.Ok? ==> Keeps(u, p, r.value)
  {
    ValidatedMeans(u, p);
    SectionsSplit(u, p);
    var common := ValidatePolicyV2(p.common);
    if common.Err? {
      return Err;
    }
    var screenAndWeb := ValidateScreenAndWeb(u, p);
    var lists := ValidateOptionalLists(u, p);
    if screenAndWeb.Err? || lists.Err? || !RestOk(u, p) {
      return Err;
    }
    r := Ok(Assemble(u, p, common.value, screenAndWeb.value.0, screenAndWeb.value.1,
                     lists.value.0, lists.value.1));
  }
}
