/** What a validated policy keeps of its payload: everything, but for order, surrounding white
    space, the spelling of domains and line breaks, and the capabilities that are added. */
module PolicyContent {
  import opened Wrappers
  import opened Ordering
  import opened Reordering
  import opened PolicyNames
  import opened PolicySchedules
  import opened PolicyContract
  import opened PolicyCanonicalForm

  // ----- text

  predicate AllSpace(space: char -> bool, s: string) { forall i :: 0 <= i < |s| ==> space(s[i]) }

  /** `t` is `s` without the white space around it. */
  ghost predicate Stripped(space: char -> bool, s: string, t: string) {
    && (exists a, b :: s == a + t + b && AllSpace(space, a) && AllSpace(space, b))
    && (t != "" ==> !space(t[0]) && !space(t[|t| - 1]))
  }

  lemma {:induction false} LStripDrops(space: char -> bool, s: string) returns (a: string)
    ensures s == a + LStrip(space, s) && AllSpace(space, a)
  {
    if s != "" && space(s[0]) {
      a := LStripDrops(space, s[1..]);
      a := [s[0]] + a;
      assert s == [s[0]] + s[1..];
    } else {
      a := "";
    }
  }

  lemma {:induction false} RStripDrops(space: char -> bool, s: string) returns (b: string)
    ensures s == RStrip(space, s) + b && AllSpace(space, b)
  {
    if s != "" && space(s[|s| - 1]) {
      b := RStripDrops(space, s[..|s| - 1]);
      b := b + [s[|s| - 1]];
      assert s == s[..|s| - 1] + [s[|s| - 1]];
    } else {
      b := "";
    }
  }

  lemma StripStrips(space: char -> bool, s: string)
    ensures Stripped(space, s, Strip(space, s))
  {
    var middle := LStrip(space, s);
    var a := LStripDrops(space, s);
    var b := RStripDrops(space, middle);
    LStripFacts(space, s);
    RStripFacts(space, middle);
    assert s == a + Strip(space, s) + b;
    var t := Strip(space, s);
    if t != "" {
      assert t[0] == middle[0];
    }
  }

  lemma UnixLinesBreaks()
    ensures UnixLines("\r\n") == "\n" && UnixLines("\r") == "\n" && UnixLines("\n") == "\n"
  {
    assert "\r\n"[2..] == "" && "\r"[1..] == "" && "\n"[1..] == "";
  }

  /** A text with a line break between its parts; a carriage return and a newline are one break. */
  lemma {:induction false} UnixLinesJoin(a: string, b: string)
    requires !(a != "" && a[|a| - 1] == '\r' && b != "" && b[0] == '\n')
    ensures UnixLines(a + b) == UnixLines(a) + UnixLines(b)
    decreases |a|
  {
    if a == "" {
      assert a + b == b;
    } else if |a| > 1 && a[0] == '\r' && a[1] == '\n' {
      UnixLinesJoin(a[2..], b);
      Drop(a, b, 2);
      assert UnixLines(a + b) == "\n" + UnixLines((a + b)[2..]);
    } else {
      UnixLinesJoin(a[1..], b);
      Drop(a, b, 1);
      assert UnixLines(a) == UnixLines([a[0]]) + UnixLines(a[1..]) by { UnixLinesOne(a); }
      assert UnixLines(a + b) == UnixLines([a[0]]) + UnixLines((a + b)[1..]) by { UnixLinesOne(a + b); }
    }
  }

  lemma Drop(a: string, b: string, n: nat)
    requires n <= |a|
    ensures (a + b)[n..] == a[n..] + b && forall i :: 0 <= i < |a| ==> (a + b)[i] == a[i]
  {
  }

  lemma UnixLinesOne(s: string)
    requires s != "" && !(|s| > 1 && s[0] == '\r' && s[1] == '\n')
    ensures UnixLines(s) == UnixLines([s[0]]) + UnixLines(s[1..])
  {
    assert [s[0]][1..] == "" && UnixLines("") == "";
  }

  /** Line breaks of all three kinds become newlines, and nothing else changes. */
  lemma UnixLinesLaws(a: string, b: string)
    ensures UnixLines("\r\n") == "\n" && UnixLines("\r") == "\n" && ('\r' !in a ==> UnixLines(a) == a)
    ensures !(a != "" && a[|a| - 1] == '\r' && b != "" && b[0] == '\n') ==>
              UnixLines(a + b) == UnixLines(a) + UnixLines(b)
  {
    UnixLinesBreaks();
    UnixLinesFacts(a);
    if !(a != "" && a[|a| - 1] == '\r' && b != "" && b[0] == '\n') {
      UnixLinesJoin(a, b);
    }
  }

  // ----- domains

  /** `d` is `s` without its trailing dots, in the encoding of IDNA and in lower case. */
  ghost predicate DomainOf(u: Unicode, s: string, d: string) {
    && IsDomain(d)
    && exists body, dots :: Ends(s, body, dots) && u.idna(body).Some? && LowerOf(u.idna(body).value, d)
  }

  ghost predicate Ends(s: string, body: string, dots: string) {
    s == body + dots && (forall i :: 0 <= i < |dots| ==> dots[i] == '.') && (body != "" ==> body[|body| - 1] != '.')
  }

  ghost predicate LowerOf(s: string, d: string) {
    |s| == |d| && forall i :: 0 <= i < |s| ==> d[i] as int == s[i] as int + (if 'A' <= s[i] <= 'Z' then 32 else 0)
  }

  lemma NormalDomainIsDomain(u: Unicode, s: string)
    requires NormalDomain(u, s).Some?
    ensures DomainOf(u, s, NormalDomain(u, s).value)
  {
    var body := RStrip(IsDot(), s);
    var dots := RStripDrops(IsDot(), s);
    RStripFacts(IsDot(), s);
    forall i | 0 <= i < |dots| ensures dots[i] == '.' {
      assert IsDot()(dots[i]);
    }
    assert Ends(s, body, dots);
  }

  // ----- lists

  ghost predicate InOrder(xs: seq<string>) { SortedBy(LexLe, xs) }

  /** The same names, in order. */
  ghost predicate NamesKept(xs: seq<string>, ys: seq<string>) { SameNames(xs, ys) && InOrder(ys) }

  lemma SortedKeeps(xs: seq<string>)
    ensures NamesKept(xs, Sorted(xs))
  {
    SortedMembers(xs);
    ByKeyIsPreorder(Itself<string>());
    SortSorts(ByKey(Itself<string>()), xs);
    forall i, j | 0 <= i < j < |Sorted(xs)| ensures LexLe(Sorted(xs)[i], Sorted(xs)[j]) {
      assert ByKey(Itself<string>())(Sorted(xs)[i], Sorted(xs)[j]);
    }
  }

  /** Item by item the list was kept, up to order, and comes in the order of its keys. */
  ghost predicate ListKept<T(!new)>(same: (T, T) -> bool, key: T -> string, xs: seq<T>, ys: seq<T>) {
    Reordered(same, xs, ys) && InOrder(Map(key, ys))
  }

  lemma SortKeepsList<T(!new)>(same: (T, T) -> bool, key: T -> string, f: T -> T, xs: seq<T>)
    requires forall x :: x in xs ==> same(x, f(x))
    ensures ListKept(same, key, xs, Sort(ByKey(key), Map(f, xs)))
  {
    var zs := Map(f, xs);
    var out := Sort(ByKey(key), zs);
    ByKeyIsPreorder(key);
    SortSorts(ByKey(key), zs);
    assert Agree(same, xs, zs);
    forall i, j | 0 <= i < j < |out| ensures LexLe(Map(key, out)[i], Map(key, out)[j]) {
      assert ByKey(key)(out[i], out[j]);
    }
  }

  ghost predicate ModeKept(m: Mode, n: Mode) {
    && n == m.(allowed := n.allowed, blocked := n.blocked, lockTask := n.lockTask, restrictions := n.restrictions)
    && NamesKept(m.allowed, n.allowed) && NamesKept(m.blocked, n.blocked)
    && NamesKept(m.lockTask, n.lockTask) && NamesKept(m.restrictions, n.restrictions)
  }

  ghost function ModeKeeps(): (Mode, Mode) -> bool { (m: Mode, n: Mode) => ModeKept(m, n) }

  lemma NormalModeKeeps(m: Mode)
    ensures ModeKept(m, NormalMode()(m)) && SameMode(m, NormalMode()(m))
  {
    SortedKeeps(m.allowed);
    SortedKeeps(m.blocked);
    SortedKeeps(m.lockTask);
    SortedKeeps(m.restrictions);
  }

  ghost function RuleKeeps(u: Unicode): (Rule, Rule) -> bool {
    (r: Rule, n: Rule) => n == r.(domain := n.domain) && DomainOf(u, r.domain, n.domain)
  }

  ghost function AppKeeps(u: Unicode): (App, App) -> bool {
    (a: App, n: App) => n == a.(name := n.name) && Stripped(u.space, a.name, n.name)
  }

  ghost predicate OptionalNamesKept(xs: Option<seq<string>>, ys: Option<seq<string>>) {
    xs.Some? == ys.Some? && (xs.Some? ==> NamesKept(xs.value, ys.value))
  }

  lemma SortedOptionKeeps(xs: Option<seq<string>>)
    ensures OptionalNamesKept(xs, SortedOption(xs))
  {
    if xs.Some? {
      SortedKeeps(xs.value);
    }
  }

  // ----- the sections

  /** The network section asks for this capability. */
  predicate Asked(settings: Option<NetworkSettings>, x: string) {
    settings.Some? && (x == "network_settings" || (x == "wifi_state_control" && !settings.value.allowWifi))
  }

  ghost predicate CommonKept(c: Common, settings: Option<NetworkSettings>, d: Common) {
    && d == c.(emergency := d.emergency, capabilities := d.capabilities, modes := d.modes, schedules := d.schedules)
    && NamesKept(c.emergency, d.emergency)
    && ListKept(ModeKeeps(), ModeId(), c.modes, d.modes)
    && ListKept(Window(), Id(), c.schedules, d.schedules)
    && InOrder(d.capabilities) && Distinct(d.capabilities)
    && (forall x :: x in d.capabilities <==> x in c.capabilities || Asked(settings, x))
  }

  lemma ClosureAdds(xs: seq<string>, settings: Option<NetworkSettings>, x: string)
    ensures x in Closure(xs, settings) <==> x in xs || Asked(settings, x)
  {
  }

  lemma CapabilitiesKept(xs: seq<string>, settings: Option<NetworkSettings>)
    requires Distinct(xs) && All(Identifier(), xs)
    ensures var ys := Sorted(Closure(Sorted(xs), settings));
            InOrder(ys) && Distinct(ys) && forall x :: x in ys <==> x in xs || Asked(settings, x)
  {
    var named := Sorted(xs);
    SortedMembers(xs);
    DistinctIgnoresOrder(Itself<string>(), xs, named);
    AllIgnoresOrder(Identifier(), xs, named);
    ClosedNames(named, settings);
  }

  lemma ClosedNames(xs: seq<string>, settings: Option<NetworkSettings>)
    requires Distinct(xs) && All(Identifier(), xs)
    ensures var ys := Sorted(Closure(xs, settings));
            InOrder(ys) && Distinct(ys) && forall x :: x in ys <==> x in xs || Asked(settings, x)
  {
    CapabilitiesClosed(xs, settings);
    SortedKeeps(Closure(xs, settings));
    SortedMembers(Closure(xs, settings));
    forall x ensures x in Closure(xs, settings) <==> x in xs || Asked(settings, x) {
      ClosureAdds(xs, settings, x);
    }
  }

  lemma CommonKeeps(c: Common, settings: Option<NetworkSettings>)
    requires CommonOk(c)
    ensures CommonKept(c, settings, ClosedCommon(c, settings))
  {
    SortedKeeps(c.emergency);
    CapabilitiesKept(c.capabilities, settings);
    forall m | m in c.modes ensures ModeKeeps()(m, NormalMode()(m)) {
      NormalModeKeeps(m);
    }
    SortKeepsList(ModeKeeps(), ModeId(), NormalMode(), c.modes);
    forall s | s in c.schedules ensures Window()(s, Normal()(s)) {
      NormalIsSameWindow(s);
    }
    SortKeepsList(Window(), Id(), Normal(), c.schedules);
  }

  lemma NormalCommonKeeps(c: Common)
    requires CommonOk(c)
    ensures CommonKept(c, None, NormalCommon(c))
  {
    CommonKeeps(c, None);
    SortedMembers(c.capabilities);
    var n := NormalCommon(c);
    assert ClosedCommon(c, None) == n.(capabilities := n.capabilities) == n;
  }

  ghost predicate WebKept(u: Unicode, w: WebFilter, v: WebFilter) {
    && v.defaultAction == w.defaultAction
    && ListKept(RuleKeeps(u), RuleId(), w.rules, v.rules) && OptionalNamesKept(w.browsers, v.browsers)
  }

  lemma WebKeeps(u: Unicode, w: WebFilter)
    requires WebOk(u, w)
    ensures WebKept(u, w, NormalWeb(u, w))
  {
    forall r | r in w.rules ensures RuleKeeps(u)(r, NormalRule(u)(r)) {
      var i :| 0 <= i < |w.rules| && w.rules[i] == r;
      assert RuleCheck(u)(w.rules[i]);
      NormalDomainIsDomain(u, r.domain);
    }
    SortKeepsList(RuleKeeps(u), RuleId(), NormalRule(u), w.rules);
    SortedOptionKeeps(w.browsers);
  }

  ghost predicate OptionalStripped(u: Unicode, s: Option<string>, t: Option<string>) {
    s.Some? == t.Some? && (s.Some? ==> Stripped(u.space, s.value, t.value))
  }

  ghost predicate DeviceUseKept(u: Unicode, d: DeviceUse, e: DeviceUse) {
    && e == d.(supportMessage := e.supportMessage, schoolName := e.schoolName)
    && Stripped(u.space, d.supportMessage, e.supportMessage) && OptionalStripped(u, d.schoolName, e.schoolName)
  }

  lemma DeviceUseKeeps(u: Unicode, d: DeviceUse)
    ensures DeviceUseKept(u, d, NormalDeviceUse(u, d))
  {
    StripStrips(u.space, d.supportMessage);
    if d.schoolName.Some? {
      StripStrips(u.space, d.schoolName.value);
    }
  }

  lemma AppsKeep(u: Unicode, apps: seq<App>)
    ensures ListKept(AppKeeps(u), AppPackage(), apps, NormalApps(u, apps))
  {
    forall a | a in apps ensures AppKeeps(u)(a, NormalApp(u)(a)) {
      StripStrips(u.space, a.name);
    }
    SortKeepsList(AppKeeps(u), AppPackage(), NormalApp(u), apps);
  }

  /** A list of sharing packages is always given, empty if there was none. */
  ghost predicate AppControlsKept(c: AppControls, d: AppControls) {
    && d == c.(sharing := d.sharing) && d.sharing.Some?
    && NamesKept(if c.sharing.Some? then c.sharing.value else [], d.sharing.value)
  }

  /** The sections that may be absent. */
  ghost predicate OptionalSectionsKept(u: Unicode, p: Policy, q: Policy) {
    && p.deviceUse.Some? == q.deviceUse.Some?
    && (p.deviceUse.Some? ==> DeviceUseKept(u, p.deviceUse.value, q.deviceUse.value))
    && p.apps.Some? == q.apps.Some?
    && (p.apps.Some? ==> ListKept(AppKeeps(u), AppPackage(), p.apps.value, q.apps.value))
    && p.appControls.Some? == q.appControls.Some?
    && (p.appControls.Some? ==> AppControlsKept(p.appControls.value, q.appControls.value))
    && p.notes.Some? == q.notes.Some?
    && (p.notes.Some? ==> Stripped(u.space, UnixLines(p.notes.value), q.notes.value))
    && OptionalStripped(u, p.description, q.description)
  }

  /** `q` says what `p` says. */
  ghost predicate Keeps(u: Unicode, p: Policy, q: Policy) {
    && q == p.(schemaVersion := 3, common := q.common, screen := p.screen.(targets := q.screen.targets), web := q.web,
               deviceUse := q.deviceUse, apps := q.apps, appControls := q.appControls, notes := q.notes,
               description := q.description)
    && CommonKept(p.common, p.settings, q.common)
    && OptionalNamesKept(p.screen.targets, q.screen.targets)
    && WebKept(u, p.web, q.web)
    && OptionalSectionsKept(u, p, q)
  }

  lemma OptionalSectionsKeep(u: Unicode, p: Policy)
    ensures OptionalSectionsKept(u, p, NormalPolicy(u, p))
  {
    if p.deviceUse.Some? { DeviceUseKeeps(u, p.deviceUse.value); }
    if p.apps.Some? { AppsKeep(u, p.apps.value); }
    if p.appControls.Some? {
      SortedKeeps(if p.appControls.value.sharing.Some? then p.appControls.value.sharing.value else []);
    }
    if p.notes.Some? { StripStrips(u.space, UnixLines(p.notes.value)); }
    if p.description.Some? { StripStrips(u.space, p.description.value); }
  }

  /** Validation forgets and invents nothing else. */
  lemma ValidationKeeps(u: Unicode, p: Policy)
    requires Validated(u, p).Ok?
    ensures Keeps(u, p, Validated(u, p).value)
  {
    CommonKeeps(p.common, p.settings);
    SortedOptionKeeps(p.screen.targets);
    WebKeeps(u, p.web);
    OptionalSectionsKeep(u, p);
  }
}
