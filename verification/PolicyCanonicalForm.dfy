/** Policy validation is a canonical form: a fixed point on its own output, blind to the order
    of its input, and stable under building, signing and verifying an envelope. */
module PolicyCanonicalForm {
  import opened Wrappers
  import opened Ordering
  import opened Reordering
  import opened Text
  import opened Base64Url
  import opened PolicyNames
  import opened PolicySchedules
  import opened PolicyContract

  // ----- stripped text

  lemma {:induction false} LStripFacts(space: char -> bool, s: string)
    ensures |LStrip(space, s)| <= |s| && LStrip(space, s) == s[|s| - |LStrip(space, s)|..]
    ensures LStrip(space, s) != "" ==> !space(LStrip(space, s)[0])
  {
    if s != "" && space(s[0]) {
      LStripFacts(space, s[1..]);
    }
  }

  lemma {:induction false} RStripFacts(space: char -> bool, s: string)
    ensures RStrip(space, s) <= s
    ensures RStrip(space, s) != "" ==> !space(RStrip(space, s)[|RStrip(space, s)| - 1])
  {
    if s != "" && space(s[|s| - 1]) {
      RStripFacts(space, s[..|s| - 1]);
    }
  }

  lemma StripFacts(space: char -> bool, s: string)
    ensures Strip(space, Strip(space, s)) == Strip(space, s)
    ensures forall c :: c in Strip(space, s) ==> c in s
  {
    LStripFacts(space, s);
    RStripFacts(space, LStrip(space, s));
    var t := Strip(space, s);
    if t != "" {
      assert t[0] == LStrip(space, s)[0];
    }
  }

  lemma StripPrintable(u: Unicode, s: string)
    requires AllPrintable(u, s)
    ensures AllPrintable(u, Strip(u.space, s))
  {
    StripFacts(u.space, s);
    var t := Strip(u.space, s);
    forall i | 0 <= i < |t| ensures u.printable(t[i]) {
      assert t[i] in s;
    }
  }

  lemma {:induction false} UnixLinesFacts(s: string)
    ensures '\r' !in UnixLines(s)
    ensures '\r' !in s ==> UnixLines(s) == s
    decreases |s|
  {
    if s != "" {
      if s[0] == '\r' {
        UnixLinesFacts(if |s| > 1 && s[1] == '\n' then s[2..] else s[1..]);
      } else {
        UnixLinesFacts(s[1..]);
        assert s == [s[0]] + s[1..];
      }
    }
  }

  lemma NotesFixed(u: Unicode, notes: string)
    requires NotesOk(u, notes)
    ensures NotesOk(u, NormalNotes(u, notes)) && NormalNotes(u, NormalNotes(u, notes)) == NormalNotes(u, notes)
  {
    UnixLinesFacts(notes);
    StripFacts(u.space, UnixLines(notes));
    UnixLinesFacts(NormalNotes(u, notes));
  }

  ghost predicate InSome(parts: seq<string>, x: char) { exists i :: 0 <= i < |parts| && x in parts[i] }

  lemma {:induction false} SplitChar(s: string, c: char, x: char)
    requires x in s && x != c
    ensures InSome(Split(s, c), x)
  {
    var rest := Split(s[1..], c);
    var parts := Split(s, c);
    if x == s[0] {
      assert x in parts[0];
    } else {
      SplitChar(s[1..], c, x);
      var i :| 0 <= i < |rest| && x in rest[i];
      if s[0] == c {
        assert parts[i + 1] == rest[i];
      } else if i == 0 {
        assert parts[0] == [s[0]] + rest[0];
        assert x in parts[0];
      } else {
        assert parts[i] == rest[i];
      }
    }
  }

  lemma {:induction false} SplitEnds(s: string, c: char)
    requires s != ""
    ensures s[0] != c ==> Split(s, c)[0] != "" && Split(s, c)[0][0] == s[0]
    ensures s[0] == c ==> Split(s, c)[0] == ""
    ensures s[|s| - 1] == c ==> Split(s, c)[|Split(s, c)| - 1] == ""
  {
    if |s| > 1 {
      SplitEnds(s[1..], c);
    } else {
      assert s[1..] == "";
    }
  }

  lemma DomainChars(d: string)
    requires IsDomain(d)
    ensures d != "" && (forall c :: c in d ==> IsLower(c) || IsDecimal(c) || c == '-' || c == '.')
    ensures IsLower(d[0]) || IsDecimal(d[0])
    ensures IsLower(d[|d| - 1])
  {
    assert d != "";
    SplitEnds(d, '.');
    var parts := Split(d, '.');
    forall c | c in d ensures IsLower(c) || IsDecimal(c) || c == '-' || c == '.' {
      if c != '.' {
        SplitChar(d, '.', c);
        var i :| 0 <= i < |parts| && c in parts[i];
        assert i < |parts| - 1 ==> IsLabel(parts[i]);
      }
    }
    assert IsLabel(parts[0]);
    assert d[|d| - 1] != '.';
    LastLabel(d);
    var last := parts[|parts| - 1];
    assert last[|last| - 1] in last;
  }

  lemma {:induction false} LastLabel(d: string)
    requires d != "" && d[|d| - 1] != '.'
    ensures var parts := Split(d, '.'); parts[|parts| - 1] != "" && parts[|parts| - 1][|parts[|parts| - 1]| - 1] == d[|d| - 1]
  {
    if |d| == 1 {
      assert d[1..] == "";
    } else {
      LastLabel(d[1..]);
    }
  }

  lemma DomainUntouched(u: Unicode, d: string)
    requires Lawful(u) && IsDomain(d)
    ensures Strip(u.space, d) == d && RStrip(IsDot(), d) == d && LowerAscii(d) == d
    ensures '/' !in d && ':' !in d
  {
    DomainChars(d);
    assert LStrip(u.space, d) == d;
    forall i | 0 <= i < |d| ensures !IsUpper(d[i]) {
      assert d[i] in d;
    }
    assert LowerAscii(d) == d;
  }

  lemma NormalDomainFixed(u: Unicode, value: string)
    requires Lawful(u) && NormalDomain(u, value).Some?
    ensures NormalDomain(u, NormalDomain(u, value).value) == NormalDomain(u, value)
  {
    DomainUntouched(u, NormalDomain(u, value).value);
  }

  // ----- lists of names

  lemma NamesFixed(ok: string -> bool, most: nat, xs: seq<string>)
    requires NamesOk(ok, most, xs)
    ensures NamesOk(ok, most, Sorted(xs)) && Sorted(Sorted(xs)) == Sorted(xs)
    ensures |Sorted(xs)| == |xs| && forall x :: x in Sorted(xs) <==> x in xs
  {
    SortByKey(Itself<string>(), xs);
    SameMembers(Sorted(xs), xs);
    AllIgnoresOrder(ok, xs, Sorted(xs));
  }

  lemma NamesIgnoreOrder(ok: string -> bool, most: nat, xs: seq<string>, ys: seq<string>)
    requires multiset(xs) == multiset(ys)
    ensures NamesOk(ok, most, xs) <==> NamesOk(ok, most, ys)
    ensures Sorted(xs) == Sorted(ys)
    ensures |xs| == |ys| && forall x :: x in xs <==> x in ys
  {
    SameMembers(xs, ys);
    AllIgnoresOrder(ok, xs, ys);
    DistinctIgnoresOrder(Itself<string>(), xs, ys);
    ByKeyIsPreorder(Itself<string>());
    SortIgnoresOrder(ByKey(Itself<string>()), xs, ys);
  }

  lemma SortedMembers(xs: seq<string>)
    ensures multiset(Sorted(xs)) == multiset(xs) && (forall x :: x in Sorted(xs) <==> x in xs) && |Sorted(xs)| == |xs|
    ensures Sorted(Sorted(xs)) == Sorted(xs)
  {
    ByKeyIsPreorder(Itself<string>());
    SortSorts(ByKey(Itself<string>()), xs);
    SortOfSorted(ByKey(Itself<string>()), Sorted(xs));
  }

  // ----- modes

  lemma ModeFixed(emergency: seq<string>, m: Mode)
    ensures ModeOk(emergency, m) ==> ModeOk(Sorted(emergency), NormalMode()(m))
    ensures NormalMode()(NormalMode()(m)) == NormalMode()(m) && ModeId()(NormalMode()(m)) == ModeId()(m)
  {
    SortedMembers(emergency);
    SortedMembers(m.allowed);
    SortedMembers(m.blocked);
    SortedMembers(m.lockTask);
    SortedMembers(m.restrictions);
    if ModeOk(emergency, m) {
      NamesFixed(Package(), MAX_PACKAGES_PER_LIST, m.allowed);
      NamesFixed(Package(), MAX_PACKAGES_PER_LIST, m.blocked);
      NamesFixed(Package(), MAX_PACKAGES_PER_LIST, m.lockTask);
      NamesFixed(Identifier(), MAX_CAPABILITIES, m.restrictions);
    }
  }

  lemma ModesFixed(emergency: seq<string>, modes: seq<Mode>)
    requires ModesOk(emergency, modes)
    ensures var out := Sort(ByKey(ModeId()), Map(NormalMode(), modes));
            && ModesOk(Sorted(emergency), out) && Sort(ByKey(ModeId()), Map(NormalMode(), out)) == out
            && Ids(out) == Ids(modes)
  {
    var out := Sort(ByKey(ModeId()), Map(NormalMode(), modes));
    forall m ensures NormalMode()(NormalMode()(m)) == NormalMode()(m) && ModeId()(NormalMode()(m)) == ModeId()(m) {
      ModeFixed(emergency, m);
    }
    SortMapFixed(ModeId(), NormalMode(), modes);
    forall i | 0 <= i < |out| ensures ModeCheck(Sorted(emergency))(out[i]) {
      assert out[i] in out;
      var m :| m in modes && out[i] == NormalMode()(m);
      ModeFixed(emergency, m);
      assert ModeCheck(emergency)(m);
    }
    ModeIdsKept(modes, out);
  }

  lemma ModeIdsKept(modes: seq<Mode>, out: seq<Mode>)
    requires forall y :: y in out ==> exists m :: m in modes && y == NormalMode()(m)
    requires forall m :: m in modes ==> NormalMode()(m) in out
    ensures Ids(out) == Ids(modes)
  {
    forall x ensures x in Ids(out) <==> x in Ids(modes) {
      if x in Ids(modes) {
        var m :| m in modes && m.id == x;
        assert NormalMode()(m) in out && NormalMode()(m).id == x;
      }
    }
  }

  // ----- the common body

  lemma CommonFixed(c: Common)
    requires CommonOk(c)
    ensures CommonOk(NormalCommon(c)) && NormalCommon(NormalCommon(c)) == NormalCommon(c)
    ensures Ids(NormalCommon(c).modes) == Ids(c.modes)
    ensures forall x :: x in NormalCommon(c).emergency <==> x in c.emergency
  {
    NamesFixed(Package(), MAX_PACKAGES_PER_LIST, c.emergency);
    NamesFixed(Identifier(), MAX_CAPABILITIES, c.capabilities);
    ModesFixed(c.emergency, c.modes);
    SchedulesFixed(c.schedules, Ids(c.modes));
  }

  /** Version 2 validation is idempotent: what it accepts, it accepts again unchanged. */
  lemma ValidatedCommonFixed(c: Common)
    requires ValidatedCommon(c).Ok?
    ensures ValidatedCommon(ValidatedCommon(c).value) == ValidatedCommon(c)
  {
    CommonFixed(c);
  }

  // ----- rules and applications

  lemma RuleFixed(u: Unicode, r: Rule)
    requires Lawful(u) && RuleOk(u, r)
    ensures RuleOk(u, NormalRule(u)(r)) && NormalRule(u)(NormalRule(u)(r)) == NormalRule(u)(r)
    ensures RuleId()(NormalRule(u)(r)) == RuleId()(r)
  {
    NormalDomainFixed(u, r.domain);
  }

  lemma RulesKept(u: Unicode, rules: seq<Rule>)
    requires Lawful(u) && RulesOk(u, rules)
    ensures var out := NormalRules(u, rules);
            && |out| == |rules| && All(RuleCheck(u), out) && DistinctBy(RuleId(), out)
            && multiset(out) == multiset(Map(NormalRule(u), rules)) && Map(NormalRule(u), out) == out
            && NormalRules(u, out) == out
  {
    var out := NormalRules(u, rules);
    EachRuleFixed(u, rules);
    SortMapFixed(RuleId(), NormalRule(u), rules);
    forall i | 0 <= i < |out| ensures RuleCheck(u)(out[i]) && NormalRule(u)(out[i]) == out[i] {
      assert out[i] in out;
    }
    assert Map(NormalRule(u), out) == out;
  }

  lemma EachRuleFixed(u: Unicode, rules: seq<Rule>)
    requires Lawful(u) && All(RuleCheck(u), rules)
    ensures forall r :: r in rules ==>
              && RuleId()(NormalRule(u)(r)) == RuleId()(r) && NormalRule(u)(NormalRule(u)(r)) == NormalRule(u)(r)
              && RuleOk(u, NormalRule(u)(r))
  {
    forall r | r in rules
      ensures RuleId()(NormalRule(u)(r)) == RuleId()(r) && NormalRule(u)(NormalRule(u)(r)) == NormalRule(u)(r)
      ensures RuleOk(u, NormalRule(u)(r))
    {
      var i :| 0 <= i < |rules| && rules[i] == r;
      assert RuleCheck(u)(rules[i]);
      RuleFixed(u, r);
    }
  }

  lemma RulesFixed(u: Unicode, rules: seq<Rule>)
    requires Lawful(u) && RulesOk(u, rules)
    ensures RulesOk(u, NormalRules(u, rules)) && NormalRules(u, NormalRules(u, rules)) == NormalRules(u, rules)
  {
    RulesKept(u, rules);
    DistinctIgnoresOrder(RuleTarget(), Map(NormalRule(u), rules), NormalRules(u, rules));
  }

  lemma AppFixed(u: Unicode, a: App)
    requires AppOk(u, a)
    ensures AppOk(u, NormalApp(u)(a)) && NormalApp(u)(NormalApp(u)(a)) == NormalApp(u)(a)
    ensures AppPackage()(NormalApp(u)(a)) == AppPackage()(a)
  {
    StripFacts(u.space, a.name);
    StripPrintable(u, a.name);
  }

  lemma AppsKept(u: Unicode, apps: seq<App>)
    requires AppsOk(u, apps)
    ensures var out := NormalApps(u, apps);
            && |out| == |apps| && All(AppCheck(u), out) && DistinctBy(AppPackage(), out)
            && multiset(out) == multiset(Map(NormalApp(u), apps)) && NormalApps(u, out) == out
            && (forall y :: y in out ==> exists a :: a in apps && y == NormalApp(u)(a))
            && (forall a :: a in apps ==> NormalApp(u)(a) in out)
  {
    var out := NormalApps(u, apps);
    forall a | a in apps
      ensures AppPackage()(NormalApp(u)(a)) == AppPackage()(a) && NormalApp(u)(NormalApp(u)(a)) == NormalApp(u)(a)
      ensures AppOk(u, NormalApp(u)(a))
    {
      var i :| 0 <= i < |apps| && apps[i] == a;
      assert AppCheck(u)(apps[i]);
      AppFixed(u, a);
    }
    SortMapFixed(AppPackage(), NormalApp(u), apps);
    forall i | 0 <= i < |out| ensures AppCheck(u)(out[i]) {
      assert out[i] in out;
    }
  }

  lemma AppsFixed(u: Unicode, apps: seq<App>)
    requires AppsOk(u, apps)
    ensures AppsOk(u, NormalApps(u, apps)) && NormalApps(u, NormalApps(u, apps)) == NormalApps(u, apps)
    ensures (exists a :: a in NormalApps(u, apps) && a.kiosk) <==> exists a :: a in apps && a.kiosk
  {
    var out := NormalApps(u, apps);
    var mapped := Map(NormalApp(u), apps);
    AppsKept(u, apps);
    forall i, j | 0 <= i < j < |mapped| ensures AppUuid()(mapped[i]) != AppUuid()(mapped[j]) {
      assert AppUuid()(apps[i]) != AppUuid()(apps[j]);
    }
    DistinctIgnoresOrder(AppUuid(), mapped, out);
    KioskKept(u, apps, out);
  }

  lemma KioskKept(u: Unicode, apps: seq<App>, out: seq<App>)
    requires forall y :: y in out ==> exists a :: a in apps && y == NormalApp(u)(a)
    requires forall a :: a in apps ==> NormalApp(u)(a) in out
    ensures (exists a :: a in out && a.kiosk) <==> exists a :: a in apps && a.kiosk
  {
    if y :| y in out && y.kiosk {
      var a :| a in apps && y == NormalApp(u)(a);
      assert a.kiosk;
    }
    if a :| a in apps && a.kiosk {
      assert NormalApp(u)(a) in out && NormalApp(u)(a).kiosk;
    }
  }

  // ----- capabilities

  lemma RequiredNames()
    ensures IsIdentifier("network_settings") && IsIdentifier("wifi_state_control")
    ensures "network_settings" != "wifi_state_control"
  {
    assert "network_settings"[0] == 'n';
  }

  lemma AddMissingKeeps(xs: seq<string>, x: string)
    requires Distinct(xs) && All(Identifier(), xs) && IsIdentifier(x)
    ensures Distinct(AddMissing(xs, x)) && All(Identifier(), AddMissing(xs, x))
    ensures forall y :: y in AddMissing(xs, x) <==> y in xs || y == x
  {
  }

  lemma ClosureKeeps(xs: seq<string>, settings: Option<NetworkSettings>)
    requires Distinct(xs) && All(Identifier(), xs)
    ensures Distinct(Closure(xs, settings)) && All(Identifier(), Closure(xs, settings))
    ensures forall x :: x in xs ==> x in Closure(xs, settings)
    ensures settings.Some? ==> "network_settings" in Closure(xs, settings)
    ensures settings.Some? && !settings.value.allowWifi ==> "wifi_state_control" in Closure(xs, settings)
  {
    RequiredNames();
    AddMissingKeeps(xs, "network_settings");
    AddMissingKeeps(AddMissing(xs, "network_settings"), "wifi_state_control");
  }

  lemma ClosureStable(xs: seq<string>, settings: Option<NetworkSettings>)
    requires settings.Some? ==> "network_settings" in xs
    requires settings.Some? && !settings.value.allowWifi ==> "wifi_state_control" in xs
    ensures Closure(xs, settings) == xs
  {
  }

  lemma ClosedSize(xs: seq<string>, settings: Option<NetworkSettings>)
    ensures |Sorted(Closure(Sorted(xs), settings))| == |Closure(xs, settings)|
  {
    SortedMembers(xs);
    SortedMembers(Closure(Sorted(xs), settings));
    RequiredNames();
    AddingTo(xs, Sorted(xs), "network_settings");
    AddingTo(AddMissing(xs, "network_settings"), AddMissing(Sorted(xs), "network_settings"), "wifi_state_control");
  }

  lemma AddingTo(xs: seq<string>, ys: seq<string>, x: string)
    requires |xs| == |ys| && forall z :: z in xs <==> z in ys
    ensures |AddMissing(xs, x)| == |AddMissing(ys, x)| && forall z :: z in AddMissing(xs, x) <==> z in AddMissing(ys, x)
  {
  }

  lemma CapabilitiesClosed(xs: seq<string>, settings: Option<NetworkSettings>)
    requires Distinct(xs) && All(Identifier(), xs)
    ensures var ys := Sorted(Closure(xs, settings));
            Distinct(ys) && All(Identifier(), ys) && Sorted(ys) == ys && Closure(ys, settings) == ys
  {
    var open := Closure(xs, settings);
    ClosureKeeps(xs, settings);
    SortedMembers(open);
    ClosureStable(Sorted(open), settings);
    DistinctIgnoresOrder(Itself<string>(), open, Sorted(open));
    AllIgnoresOrder(Identifier(), open, Sorted(open));
  }

  /** The closed common body normalises to itself; it is accepted when the capabilities fit. */
  lemma ClosedCommonFixed(c: Common, settings: Option<NetworkSettings>)
    requires CommonOk(c)
    ensures var closed := ClosedCommon(c, settings);
            && ClosedCommon(closed, settings) == closed
            && (CommonOk(closed) <==> |closed.capabilities| <= MAX_CAPABILITIES)
  {
    var n := NormalCommon(c);
    var closed := ClosedCommon(c, settings);
    CommonFixed(c);
    CapabilitiesClosed(n.capabilities, settings);
    assert NormalCommon(closed) == closed.(capabilities := Sorted(closed.capabilities));
  }

  // ----- whole policies

  lemma OptionalNamesFixed(most: nat, xs: Option<seq<string>>)
    requires OptionalNamesOk(most, xs)
    ensures OptionalNamesOk(most, SortedOption(xs)) && SortedOption(SortedOption(xs)) == SortedOption(xs)
  {
    if xs.Some? {
      NamesFixed(Package(), most, xs.value);
    }
  }

  lemma ScreenFixed(s: ScreenTime, modeIds: set<string>)
    requires ScreenOk(s, modeIds)
    ensures ScreenOk(NormalScreen(s), modeIds) && NormalScreen(NormalScreen(s)) == NormalScreen(s)
  {
    OptionalNamesFixed(MAX_PACKAGES_PER_LIST, s.targets);
  }

  lemma WebFixed(u: Unicode, w: WebFilter)
    requires Lawful(u) && WebOk(u, w)
    ensures WebOk(u, NormalWeb(u, w)) && NormalWeb(u, NormalWeb(u, w)) == NormalWeb(u, w)
  {
    OptionalNamesFixed(MAX_BROWSERS, w.browsers);
    RulesFixed(u, w.rules);
  }

  lemma DeviceUseFixed(u: Unicode, d: DeviceUse)
    requires DeviceUseOk(u, d)
    ensures DeviceUseOk(u, NormalDeviceUse(u, d)) && NormalDeviceUse(u, NormalDeviceUse(u, d)) == NormalDeviceUse(u, d)
  {
    StripFacts(u.space, d.supportMessage);
    StripPrintable(u, d.supportMessage);
    if d.schoolName.Some? {
      StripFacts(u.space, d.schoolName.value);
      StripPrintable(u, d.schoolName.value);
    }
  }

  lemma AppControlsFixed(c: AppControls)
    requires AppControlsOk(c)
    ensures AppControlsOk(NormalAppControls(c)) && NormalAppControls(NormalAppControls(c)) == NormalAppControls(c)
  {
    NamesFixed(Package(), MAX_PACKAGES_PER_LIST, if c.sharing.Some? then c.sharing.value else []);
  }

  lemma IdentityFixed(u: Unicode, code: Option<string>, description: Option<string>)
    requires description.Some?
    ensures var d := Strip(u.space, description.value);
            && Strip(u.space, d) == d && (IdentityOk(u, code, description) ==> IdentityOk(u, code, Some(d)))
  {
    StripFacts(u.space, description.value);
  }

  /** The optional sections with text or lists. */
  lemma OptionalSectionsFixed(u: Unicode, p: Policy)
    requires Lawful(u) && SectionsOk(u, p)
    ensures var n := NormalPolicy(u, p);
            && (n.deviceUse.Some? ==>
                  DeviceUseOk(u, n.deviceUse.value) && NormalDeviceUse(u, n.deviceUse.value) == n.deviceUse.value)
            && (n.apps.Some? ==> AppsOk(u, n.apps.value) && NormalApps(u, n.apps.value) == n.apps.value)
            && (n.appControls.Some? ==>
                  AppControlsOk(n.appControls.value) && NormalAppControls(n.appControls.value) == n.appControls.value)
            && (n.notes.Some? ==> NotesOk(u, n.notes.value) && NormalNotes(u, n.notes.value) == n.notes.value)
            && (n.description.Some? ==> Strip(u.space, n.description.value) == n.description.value)
            && IdentityOk(u, n.code, n.description)
  {
    if p.deviceUse.Some? { DeviceUseFixed(u, p.deviceUse.value); }
    if p.apps.Some? { AppsFixed(u, p.apps.value); }
    if p.appControls.Some? { AppControlsFixed(p.appControls.value); }
    if p.notes.Some? { NotesFixed(u, p.notes.value); }
    if p.description.Some? { IdentityFixed(u, p.code, p.description); }
  }

  lemma SectionsFixed(u: Unicode, p: Policy)
    requires Lawful(u) && CommonOk(p.common) && SectionsOk(u, p)
    ensures SectionsOk(u, NormalPolicy(u, p))
    ensures NormalPolicy(u, NormalPolicy(u, p)) == NormalPolicy(u, p)
  {
    CommonFixed(p.common);
    ClosedCommonFixed(p.common, p.settings);
    ScreenFixed(p.screen, Ids(p.common.modes));
    WebFixed(u, p.web);
    OptionalSectionsFixed(u, p);
  }

  lemma CrossFixed(u: Unicode, p: Policy)
    requires CommonOk(p.common) && SectionsOk(u, p) && CrossOk(p)
    ensures CrossOk(NormalPolicy(u, p))
  {
    CommonFixed(p.common);
    if p.apps.Some? { AppsFixed(u, p.apps.value); }
  }

  /** An accepted policy validates to itself exactly when its closed capabilities still fit. */
  lemma ValidationIsFixedPoint(u: Unicode, p: Policy)
    requires Lawful(u) && Validated(u, p).Ok?
    ensures var q := Validated(u, p).value;
            Validated(u, q) == if |Closure(p.common.capabilities, p.settings)| <= MAX_CAPABILITIES then Ok(q) else Err
  {
    ClosedSize(p.common.capabilities, p.settings);
    ClosedCommonFixed(p.common, p.settings);
    SectionsFixed(u, p);
    CrossFixed(u, p);
  }

  // ----- order of input

  ghost predicate SameNames(xs: seq<string>, ys: seq<string>) { multiset(xs) == multiset(ys) }

  ghost predicate SameOptionalNames(xs: Option<seq<string>>, ys: Option<seq<string>>) {
    xs.Some? == ys.Some? && (xs.Some? ==> SameNames(xs.value, ys.value))
  }

  ghost predicate SameMode(m: Mode, n: Mode) {
    && n == m.(allowed := n.allowed, blocked := n.blocked, lockTask := n.lockTask, restrictions := n.restrictions)
    && SameNames(m.allowed, n.allowed) && SameNames(m.blocked, n.blocked)
    && SameNames(m.lockTask, n.lockTask) && SameNames(m.restrictions, n.restrictions)
  }

  ghost function ModeRelation(): (Mode, Mode) -> bool { (m: Mode, n: Mode) => SameMode(m, n) }

  ghost predicate SameCommon(c: Common, d: Common) {
    && d == c.(emergency := d.emergency, capabilities := d.capabilities, modes := d.modes, schedules := d.schedules)
    && SameNames(c.emergency, d.emergency) && SameNames(c.capabilities, d.capabilities)
    && Reordered(ModeRelation(), c.modes, d.modes) && Reordered(Window(), c.schedules, d.schedules)
  }

  /** The payloads differ only in the order of modes, schedules, days, packages, capabilities,
      restrictions, rules or applications. */
  ghost predicate SameUpToOrder(p: Policy, q: Policy) {
    && q == p.(common := q.common, apps := q.apps, appControls := q.appControls,
               screen := p.screen.(targets := q.screen.targets),
               web := p.web.(rules := q.web.rules, browsers := q.web.browsers))
    && SameCommon(p.common, q.common)
    && SameOptionalNames(p.screen.targets, q.screen.targets)
    && SameOptionalNames(p.web.browsers, q.web.browsers)
    && multiset(p.web.rules) == multiset(q.web.rules)
    && p.apps.Some? == q.apps.Some? && (p.apps.Some? ==> multiset(p.apps.value) == multiset(q.apps.value))
    && p.appControls.Some? == q.appControls.Some?
    && (p.appControls.Some? ==>
          q.appControls.value == p.appControls.value.(sharing := q.appControls.value.sharing)
          && SameOptionalNames(p.appControls.value.sharing, q.appControls.value.sharing))
  }

  lemma SameModeSameMeaning(e: seq<string>, m: Mode, n: Mode)
    requires SameMode(m, n)
    ensures ModeOk(e, m) <==> ModeOk(e, n)
    ensures NormalMode()(m) == NormalMode()(n) && ModeId()(m) == ModeId()(n)
  {
    NamesIgnoreOrder(Package(), MAX_PACKAGES_PER_LIST, m.allowed, n.allowed);
    NamesIgnoreOrder(Package(), MAX_PACKAGES_PER_LIST, m.blocked, n.blocked);
    NamesIgnoreOrder(Package(), MAX_PACKAGES_PER_LIST, m.lockTask, n.lockTask);
    NamesIgnoreOrder(Identifier(), MAX_CAPABILITIES, m.restrictions, n.restrictions);
  }

  lemma ReorderedModes(e: seq<string>, xs: seq<Mode>, ys: seq<Mode>)
    requires Reordered(ModeRelation(), xs, ys)
    ensures |xs| == |ys| && (All(ModeCheck(e), xs) <==> All(ModeCheck(e), ys))
    ensures DistinctBy(ModeId(), xs) <==> DistinctBy(ModeId(), ys)
    ensures multiset(Map(NormalMode(), xs)) == multiset(Map(NormalMode(), ys))
    ensures multiset(Map(ModeId(), xs)) == multiset(Map(ModeId(), ys))
  {
    forall m, n | ModeRelation()(m, n)
      ensures (ModeCheck(e)(m) <==> ModeCheck(e)(n)) && ModeId()(m) == ModeId()(n)
      ensures NormalMode()(m) == NormalMode()(n)
    {
      SameModeSameMeaning(e, m, n);
    }
    ReorderedKeeps(ModeRelation(), ModeCheck(e), ModeId(), NormalMode(), xs, ys);
    ReorderedKeeps(ModeRelation(), ModeCheck(e), ModeId(), ModeId(), xs, ys);
  }

  lemma SameEmergency(e: seq<string>, f: seq<string>, modes: seq<Mode>)
    requires SameNames(e, f)
    ensures All(ModeCheck(e), modes) <==> All(ModeCheck(f), modes)
  {
    SameMembers(e, f);
    forall m ensures ModeCheck(e)(m) <==> ModeCheck(f)(m) {
      assert Within(e, m.allowed) <==> Within(f, m.allowed);
    }
  }

  lemma IdsAreMapped(modes: seq<Mode>)
    ensures forall x :: x in Ids(modes) <==> x in Map(ModeId(), modes)
  {
    forall x ensures x in Ids(modes) <==> x in Map(ModeId(), modes) {
      if x in Ids(modes) {
        var m :| m in modes && m.id == x;
        var i :| 0 <= i < |modes| && modes[i] == m;
        assert Map(ModeId(), modes)[i] == x;
      }
      if x in Map(ModeId(), modes) {
        var i :| 0 <= i < |modes| && Map(ModeId(), modes)[i] == x;
        assert modes[i] in modes && modes[i].id == x;
      }
    }
  }

  lemma NormalModesDistinct(xs: seq<Mode>)
    requires DistinctBy(ModeId(), xs)
    ensures DistinctBy(ModeId(), Map(NormalMode(), xs))
  {
    forall i, j | 0 <= i < j < |xs| ensures ModeId()(Map(NormalMode(), xs)[i]) != ModeId()(Map(NormalMode(), xs)[j]) {
      assert ModeId()(xs[i]) != ModeId()(xs[j]);
    }
  }

  lemma ModesIgnoreOrder(e: seq<string>, f: seq<string>, xs: seq<Mode>, ys: seq<Mode>)
    requires SameNames(e, f) && Reordered(ModeRelation(), xs, ys)
    ensures ModesOk(e, xs) <==> ModesOk(f, ys)
    ensures Ids(xs) == Ids(ys)
    ensures ModesOk(e, xs) ==>
              Sort(ByKey(ModeId()), Map(NormalMode(), xs)) == Sort(ByKey(ModeId()), Map(NormalMode(), ys))
  {
    ReorderedModes(e, xs, ys);
    SameEmergency(e, f, ys);
    SameMembers(Map(ModeId(), xs), Map(ModeId(), ys));
    IdsAreMapped(xs);
    IdsAreMapped(ys);
    if DistinctBy(ModeId(), xs) {
      NormalModesDistinct(xs);
      SortByKeyIgnoresOrder(ModeId(), Map(NormalMode(), xs), Map(NormalMode(), ys));
    }
  }

  lemma CommonIgnoresOrder(c: Common, d: Common)
    requires SameCommon(c, d)
    ensures CommonOk(c) <==> CommonOk(d)
    ensures CommonOk(c) ==> NormalCommon(c) == NormalCommon(d)
    ensures Ids(c.modes) == Ids(d.modes) && forall x :: x in c.emergency <==> x in d.emergency
  {
    NamesIgnoreOrder(Package(), MAX_PACKAGES_PER_LIST, c.emergency, d.emergency);
    NamesIgnoreOrder(Identifier(), MAX_CAPABILITIES, c.capabilities, d.capabilities);
    ModesIgnoreOrder(c.emergency, d.emergency, c.modes, d.modes);
    SchedulesIgnoreOrder(c.schedules, d.schedules, Ids(c.modes));
  }

  lemma OptionalNamesIgnoreOrder(most: nat, xs: Option<seq<string>>, ys: Option<seq<string>>)
    requires SameOptionalNames(xs, ys)
    ensures OptionalNamesOk(most, xs) <==> OptionalNamesOk(most, ys)
    ensures SortedOption(xs) == SortedOption(ys)
  {
    if xs.Some? {
      NamesIgnoreOrder(Package(), most, xs.value, ys.value);
    }
  }

  lemma RulesIgnoreOrder(u: Unicode, xs: seq<Rule>, ys: seq<Rule>)
    requires multiset(xs) == multiset(ys)
    ensures RulesOk(u, xs) <==> RulesOk(u, ys)
    ensures RulesOk(u, xs) ==> NormalRules(u, xs) == NormalRules(u, ys)
  {
    SameMembers(xs, ys);
    AllIgnoresOrder(RuleCheck(u), xs, ys);
    DistinctIgnoresOrder(RuleId(), xs, ys);
    MapMultiset(NormalRule(u), xs, ys);
    DistinctIgnoresOrder(RuleTarget(), Map(NormalRule(u), xs), Map(NormalRule(u), ys));
    if RulesOk(u, xs) {
      forall i, j | 0 <= i < j < |xs| ensures RuleId()(Map(NormalRule(u), xs)[i]) != RuleId()(Map(NormalRule(u), xs)[j]) {
        assert RuleId()(xs[i]) != RuleId()(xs[j]);
      }
      SortByKeyIgnoresOrder(RuleId(), Map(NormalRule(u), xs), Map(NormalRule(u), ys));
    }
  }

  lemma AppsIgnoreOrder(u: Unicode, xs: seq<App>, ys: seq<App>)
    requires multiset(xs) == multiset(ys)
    ensures AppsOk(u, xs) <==> AppsOk(u, ys)
    ensures AppsOk(u, xs) ==> NormalApps(u, xs) == NormalApps(u, ys)
    ensures forall a :: a in xs <==> a in ys
  {
    SameMembers(xs, ys);
    AllIgnoresOrder(AppCheck(u), xs, ys);
    DistinctIgnoresOrder(AppUuid(), xs, ys);
    DistinctIgnoresOrder(AppPackage(), xs, ys);
    MapMultiset(NormalApp(u), xs, ys);
    if AppsOk(u, xs) {
      forall i, j | 0 <= i < j < |xs| ensures AppPackage()(Map(NormalApp(u), xs)[i]) != AppPackage()(Map(NormalApp(u), xs)[j]) {
        assert AppPackage()(xs[i]) != AppPackage()(xs[j]);
      }
      SortByKeyIgnoresOrder(AppPackage(), Map(NormalApp(u), xs), Map(NormalApp(u), ys));
    }
  }

  lemma AppControlsIgnoreOrder(c: AppControls, d: AppControls)
    requires d == c.(sharing := d.sharing) && SameOptionalNames(c.sharing, d.sharing)
    ensures AppControlsOk(c) <==> AppControlsOk(d)
    ensures NormalAppControls(c) == NormalAppControls(d)
  {
    OptionalNamesIgnoreOrder(MAX_PACKAGES_PER_LIST, c.sharing, d.sharing);
  }

  lemma CrossIgnoresOrder(u: Unicode, p: Policy, q: Policy)
    requires SameUpToOrder(p, q)
    ensures CrossOk(p) <==> CrossOk(q)
  {
    CommonIgnoresOrder(p.common, q.common);
    if p.apps.Some? {
      AppsIgnoreOrder(u, p.apps.value, q.apps.value);
      assert HasKioskApp(p.apps) <==> HasKioskApp(q.apps);
    }
  }

  lemma WebIgnoresOrder(u: Unicode, w: WebFilter, v: WebFilter)
    requires v == w.(rules := v.rules, browsers := v.browsers)
    requires SameOptionalNames(w.browsers, v.browsers) && multiset(w.rules) == multiset(v.rules)
    ensures WebOk(u, w) <==> WebOk(u, v)
    ensures WebOk(u, w) ==> NormalWeb(u, w) == NormalWeb(u, v)
  {
    OptionalNamesIgnoreOrder(MAX_BROWSERS, w.browsers, v.browsers);
    RulesIgnoreOrder(u, w.rules, v.rules);
  }

  lemma ScreenIgnoresOrder(s: ScreenTime, t: ScreenTime, modeIds: set<string>)
    requires t == s.(targets := t.targets) && SameOptionalNames(s.targets, t.targets)
    ensures ScreenOk(s, modeIds) <==> ScreenOk(t, modeIds)
    ensures NormalScreen(s) == NormalScreen(t)
  {
    OptionalNamesIgnoreOrder(MAX_PACKAGES_PER_LIST, s.targets, t.targets);
  }

  lemma SectionsIgnoreOrder(u: Unicode, p: Policy, q: Policy)
    requires SameUpToOrder(p, q)
    ensures SectionsOk(u, p) <==> SectionsOk(u, q)
  {
    CommonIgnoresOrder(p.common, q.common);
    ScreenIgnoresOrder(p.screen, q.screen, Ids(p.common.modes));
    WebIgnoresOrder(u, p.web, q.web);
    if p.apps.Some? { AppsIgnoreOrder(u, p.apps.value, q.apps.value); }
    if p.appControls.Some? { AppControlsIgnoreOrder(p.appControls.value, q.appControls.value); }
  }

  lemma NormalFormIgnoresOrder(u: Unicode, p: Policy, q: Policy)
    requires SameUpToOrder(p, q) && CommonOk(p.common) && SectionsOk(u, p)
    ensures NormalPolicy(u, p) == NormalPolicy(u, q)
  {
    var n, m := NormalPolicy(u, p), NormalPolicy(u, q);
    assert n.common == m.common by { CommonIgnoresOrder(p.common, q.common); }
    assert n.screen == m.screen by { ScreenIgnoresOrder(p.screen, q.screen, Ids(p.common.modes)); }
    assert n.web == m.web by { WebIgnoresOrder(u, p.web, q.web); }
    assert n.apps == m.apps by {
      if p.apps.Some? { AppsIgnoreOrder(u, p.apps.value, q.apps.value); }
    }
    assert n.appControls == m.appControls by {
      if p.appControls.Some? { AppControlsIgnoreOrder(p.appControls.value, q.appControls.value); }
    }
  }

  /** The order of the input changes neither whether it is accepted nor what comes out. */
  lemma ValidationIgnoresOrder(u: Unicode, p: Policy, q: Policy)
    requires SameUpToOrder(p, q)
    ensures Validated(u, p) == Validated(u, q)
  {
    CommonIgnoresOrder(p.common, q.common);
    SectionsIgnoreOrder(u, p, q);
    CrossIgnoresOrder(u, p, q);
    if CommonOk(p.common) && SectionsOk(u, p) {
      NormalFormIgnoresOrder(u, p, q);
    }
  }

  // ----- envelopes

  datatype Envelope = Envelope(protocol: int, policyUuid: string, revisionUuid: string, revisionNumber: int,
                               issuedAt: string, payloadHash: string, keyId: string, payload: Policy)

  /** SHA-256 over canonical JSON, Ed25519 over canonical JSON, and the check that a text is a
      canonical UTC second. */
  datatype Crypto = Crypto(hash: Policy -> string, sign: Envelope -> string,
                           verify: (Envelope, string) -> bool, instant: string -> bool)

  const POLICY_PROTOCOL_VERSION := 3

  predicate IsKeyId(s: string) {
    1 <= |s| <= 64 && forall c :: c in s ==> IsLower(c) || IsUpper(c) || IsDecimal(c) || c in "._-"
  }

  predicate HeaderOk(k: Crypto, policyUuid: string, revisionUuid: string, revisionNumber: int,
                     issuedAt: string, keyId: string) {
    IsKeyId(keyId) && IsUuid4(policyUuid) && IsUuid4(revisionUuid) && 1 <= revisionNumber <= MAX_INT && k.instant(issuedAt)
  }

  /** `build_policy_v3_envelope`: the payload is validated, its common part is validated again
      as a version 2 policy, and the whole once more for the hash. */
  ghost function Build(u: Unicode, k: Crypto, policyUuid: string, revisionUuid: string, revisionNumber: int,
                       issuedAt: string, keyId: string, payload: Policy): Result<Envelope> {
    match Validated(u, payload)
    case Err => Err
    case Ok(checked) =>
      if !HeaderOk(k, policyUuid, revisionUuid, revisionNumber, issuedAt, keyId)
         || ValidatedCommon(checked.common).Err? then Err
      else
        match Validated(u, checked)
        case Err => Err
        case Ok(again) =>
          Ok(Envelope(POLICY_PROTOCOL_VERSION, policyUuid, revisionUuid, revisionNumber, issuedAt,
                      k.hash(again), keyId, checked))
  }

  /** `verify_policy_v3_envelope`: the signature, then a rebuild that must give the same object. */
  ghost function Verify(u: Unicode, k: Crypto, e: Envelope, signature: string): Result<Envelope> {
    if e.protocol != POLICY_PROTOCOL_VERSION || !k.verify(e, signature) then Err
    else
      match Build(u, k, e.policyUuid, e.revisionUuid, e.revisionNumber, e.issuedAt, e.keyId, e.payload)
      case Err => Err
      case Ok(rebuilt) => if rebuilt == e then Ok(rebuilt) else Err
  }

  /** A payload can be enveloped exactly when it is accepted and its closed capabilities fit. */
  lemma BuildAccepts(u: Unicode, k: Crypto, policyUuid: string, revisionUuid: string, revisionNumber: int,
                     issuedAt: string, keyId: string, payload: Policy)
    requires Lawful(u)
    ensures Build(u, k, policyUuid, revisionUuid, revisionNumber, issuedAt, keyId, payload).Ok?
       <==> HeaderOk(k, policyUuid, revisionUuid, revisionNumber, issuedAt, keyId) && Validated(u, payload).Ok?
            && |Closure(payload.common.capabilities, payload.settings)| <= MAX_CAPABILITIES
  {
    if Validated(u, payload).Ok? {
      ValidationIsFixedPoint(u, payload);
    }
  }

  /** Every payload that can be enveloped survives building, signing and verifying unchanged. */
  lemma EnvelopeSurvives(u: Unicode, k: Crypto, policyUuid: string, revisionUuid: string, revisionNumber: int,
                         issuedAt: string, keyId: string, payload: Policy)
    requires Lawful(u) && forall e :: k.verify(e, k.sign(e))
    requires Build(u, k, policyUuid, revisionUuid, revisionNumber, issuedAt, keyId, payload).Ok?
    ensures var e := Build(u, k, policyUuid, revisionUuid, revisionNumber, issuedAt, keyId, payload).value;
            && Verify(u, k, e, k.sign(e)) == Ok(e)
            && Validated(u, payload) == Ok(e.payload) && Validated(u, e.payload) == Ok(e.payload)
            && e.payloadHash == k.hash(e.payload)
            && e.protocol == 3 && e.policyUuid == policyUuid && e.revisionUuid == revisionUuid
            && e.revisionNumber == revisionNumber && e.issuedAt == issuedAt && e.keyId == keyId
  {
    ValidationIsFixedPoint(u, payload);
  }

  /** An envelope verifies exactly when its signature does, its header is well formed, and its payload
      is valid, in normal form, and what was hashed. */
  lemma VerifiesExactly(u: Unicode, k: Crypto, e: Envelope, signature: string)
    requires Lawful(u)
    ensures Verify(u, k, e, signature).Ok?
       <==> e.protocol == 3 && k.verify(e, signature) && Validated(u, e.payload) == Ok(e.payload)
            && HeaderOk(k, e.policyUuid, e.revisionUuid, e.revisionNumber, e.issuedAt, e.keyId)
            && e.payloadHash == k.hash(e.payload)
    ensures Verify(u, k, e, signature).Ok? ==> Verify(u, k, e, signature) == Ok(e)
  {
    if Validated(u, e.payload).Ok? {
      ValidationIsFixedPoint(u, e.payload);
    }
  }

  lemma FullClosureOverflows(caps: seq<string>, settings: Option<NetworkSettings>)
    requires |caps| == MAX_CAPABILITIES && settings.Some? && "network_settings" !in caps
    ensures |Closure(caps, settings)| > MAX_CAPABILITIES
  {
  }

  /** An accepted policy with 64 other capabilities and a network section cannot be enveloped. */
  lemma FullCapabilitiesCannotBeEnveloped(u: Unicode, k: Crypto, policyUuid: string, revisionUuid: string,
                                          revisionNumber: int, issuedAt: string, keyId: string, payload: Policy)
    requires Lawful(u) && Validated(u, payload).Ok?
    requires |payload.common.capabilities| == MAX_CAPABILITIES && payload.settings.Some?
    requires "network_settings" !in payload.common.capabilities
    ensures Build(u, k, policyUuid, revisionUuid, revisionNumber, issuedAt, keyId, payload).Err?
  {
    FullClosureOverflows(payload.common.capabilities, payload.settings);
    BuildAccepts(u, k, policyUuid, revisionUuid, revisionNumber, issuedAt, keyId, payload);
  }
}
