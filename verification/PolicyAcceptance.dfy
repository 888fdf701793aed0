/** Which policy payloads are accepted, requirement by requirement, and what that means for a device
    (`backend/app/policy_contract.py`, `backend/app/policy_contract_v3.py`). */
module PolicyAcceptance {
  import opened Wrappers
  import opened Reordering
  import opened Text
  import opened Base64Url
  import opened PolicyNames
  import opened PolicySchedules
  import opened PolicyContract
  import opened PolicyContent
  import opened PolicySafety

  // ----- names

  /** At most `most` names, all of this form, none twice. */
  ghost predicate Names(xs: seq<string>, most: nat, form: string -> bool) {
    |xs| <= most && |set x | x in xs| == |xs| && forall x :: x in xs ==> form(x)
  }

  lemma {:induction false} NoneTwice(xs: seq<string>)
    ensures |set x | x in xs| <= |xs|
    ensures |set x | x in xs| == |xs| <==> Distinct(xs)
  {
    if xs == [] {
      assert (set x | x in xs) == {};
    } else {
      var rest := xs[1..];
      NoneTwice(rest);
      var all, some := set x | x in xs, set x | x in rest;
      assert xs == [xs[0]] + rest;
      assert all == some + {xs[0]};
      if xs[0] in rest {
        assert all == some;
        var j :| 0 <= j < |rest| && rest[j] == xs[0];
        assert Itself<string>()(xs[0]) == Itself<string>()(xs[j + 1]);
      } else {
        assert |all| == |some| + 1;
        RestDistinct(xs);
      }
    }
  }

  lemma RestDistinct(xs: seq<string>)
    requires xs != [] && xs[0] !in xs[1..]
    ensures Distinct(xs) <==> Distinct(xs[1..])
  {
    if Distinct(xs) {
      forall i, j | 0 <= i < j < |xs[1..]| ensures xs[1..][i] != xs[1..][j] {
        assert Itself<string>()(xs[i + 1]) != Itself<string>()(xs[j + 1]);
      }
    }
    if Distinct(xs[1..]) {
      forall i, j | 0 <= i < j < |xs| ensures xs[i] != xs[j] {
        if i == 0 {
          assert xs[j] == xs[1..][j - 1];
        } else {
          assert Itself<string>()(xs[1..][i - 1]) != Itself<string>()(xs[1..][j - 1]);
        }
      }
    }
  }

  lemma NamesAreOk(xs: seq<string>, most: nat, form: string -> bool)
    ensures NamesOk(form, most, xs) <==> Names(xs, most, form)
  {
    NoneTwice(xs);
    assert All(form, xs) <==> forall x :: x in xs ==> form(x);
  }

  /** Letters, digits and underscores in at least two parts joined by dots, none starting with a digit. */
  ghost predicate IsPackageName(s: string) {
    exists parts: seq<string> :: |parts| >= 2 && s == Join(parts, '.') && forall p :: p in parts ==> IsPackagePart(p)
  }

  predicate IsPackagePart(p: string) {
    && |p| > 0 && !('0' <= p[0] <= '9')
    && forall i :: 0 <= i < |p| ==> 'a' <= p[i] <= 'z' || 'A' <= p[i] <= 'Z' || '0' <= p[i] <= '9' || p[i] == '_'
  }

  lemma PartIsSegment(p: string)
    ensures IsPackagePart(p) <==> IsPackageSegment(p)
    ensures IsPackagePart(p) ==> '.' !in p
  {
    assert forall i :: 0 <= i < |p| ==> p[i] in p;
  }

  lemma {:induction false} JoinSplit(s: string, c: char)
    ensures Join(Split(s, c), c) == s
    ensures forall p :: p in Split(s, c) ==> c !in p
  {
    if s != "" {
      var rest := Split(s[1..], c);
      JoinSplit(s[1..], c);
      assert s == [s[0]] + s[1..];
      if s[0] == c {
        assert Split(s, c) == [""] + rest;
        assert ([""] + rest)[1..] == rest;
      } else {
        assert Split(s, c) == [[s[0]] + rest[0]] + rest[1..];
        assert ([[s[0]] + rest[0]] + rest[1..])[1..] == rest[1..];
        if |rest| > 1 {
          assert Join(rest, c) == rest[0] + [c] + Join(rest[1..], c);
        }
      }
    }
  }

  lemma PackageExactly(s: string)
    ensures IsPackage(s) <==> IsPackageName(s)
  {
    if IsPackage(s) {
      JoinSplit(s, '.');
      var parts := Split(s, '.');
      forall p | p in parts ensures IsPackagePart(p) {
        PartIsSegment(p);
      }
    }
    if parts: seq<string> :| |parts| >= 2 && s == Join(parts, '.') && forall p :: p in parts ==> IsPackagePart(p) {
      forall i | 0 <= i < |parts| ensures '.' !in parts[i] && IsPackageSegment(parts[i]) {
        assert parts[i] in parts;
        PartIsSegment(parts[i]);
      }
      SplitJoin(parts, '.');
    }
  }

  /** A lower-case letter, then lower-case letters, digits and underscores, 64 at most. */
  predicate IsName(s: string) {
    && 0 < |s| < 65 && 'a' <= s[0] <= 'z'
    && forall i :: 0 <= i < |s| ==> 'a' <= s[i] <= 'z' || '0' <= s[i] <= '9' || s[i] == '_'
  }

  lemma NameExactly(s: string)
    ensures IsIdentifier(s) <==> IsName(s)
  {
    assert forall i :: 0 <= i < |s| ==> s[i] in s;
  }

  ghost function PackageForm(): string -> bool { (s: string) => IsPackageName(s) }
  function NameForm(): string -> bool { (s: string) => IsName(s) }

  lemma PackagesExactly(xs: seq<string>, most: nat)
    ensures NamesOk(Package(), most, xs) <==> Names(xs, most, PackageForm())
  {
    NamesAreOk(xs, most, Package());
    forall x | x in xs ensures Package()(x) <==> PackageForm()(x) {
      PackageExactly(x);
    }
  }

  lemma NameListExactly(xs: seq<string>, most: nat)
    ensures NamesOk(Identifier(), most, xs) <==> Names(xs, most, NameForm())
  {
    NamesAreOk(xs, most, Identifier());
    forall x | x in xs ensures Identifier()(x) <==> NameForm()(x) {
      NameExactly(x);
    }
  }

  ghost predicate OptionalPackages(xs: Option<seq<string>>, most: nat) {
    xs.Some? ==> Names(xs.value, most, PackageForm())
  }

  lemma OptionalExactly(most: nat, xs: Option<seq<string>>)
    ensures OptionalNamesOk(most, xs) <==> OptionalPackages(xs, most)
  {
    if xs.Some? {
      PackagesExactly(xs.value, most);
    }
  }

  // ----- the common body

  ghost predicate ModeMeets(emergency: seq<string>, m: Mode) {
    && IsName(m.id)
    && Names(m.allowed, 256, PackageForm()) && Names(m.blocked, 256, PackageForm())
    && Names(m.lockTask, 256, PackageForm()) && Names(m.restrictions, 64, NameForm())
    && (set x | x in m.allowed) * (set x | x in m.blocked) == {}
    && (set x | x in emergency) + (set x | x in m.lockTask) <= (set x | x in m.allowed)
  }

  lemma ModeExactly(emergency: seq<string>, m: Mode)
    ensures ModeOk(emergency, m) <==> ModeMeets(emergency, m)
  {
    NameExactly(m.id);
    PackagesExactly(m.allowed, 256);
    PackagesExactly(m.blocked, 256);
    PackagesExactly(m.lockTask, 256);
    NameListExactly(m.restrictions, 64);
    Disjoint(m.allowed, m.blocked);
    Contained(emergency, m.lockTask, m.allowed);
  }

  lemma Disjoint(xs: seq<string>, ys: seq<string>)
    ensures (set x | x in xs) * (set x | x in ys) == {} <==> forall x :: x in xs ==> x !in ys
  {
    var both := (set x | x in xs) * (set x | x in ys);
    assert forall x :: x in both <==> x in xs && x in ys;
  }

  lemma Contained(xs: seq<string>, ys: seq<string>, zs: seq<string>)
    ensures (set x | x in xs) + (set x | x in ys) <= (set x | x in zs) <==> Within(xs, zs) && Within(ys, zs)
  {
    var some, all := (set x | x in xs) + (set x | x in ys), set x | x in zs;
    assert forall x :: x in some <==> x in xs || x in ys;
    assert forall x :: x in all <==> x in zs;
  }

  ghost predicate ScheduleMeets(s: Schedule, modeIds: set<string>) {
    && IsName(s.id) && s.modeId in modeIds && IsName(s.modeId)
    && 0 < |s.days| && (forall i :: 0 <= i < |s.days| ==> 0 < s.days[i] < 8)
    && (forall i, j :: 0 <= i < j < |s.days| ==> s.days[i] != s.days[j])
    && 0 <= s.start < 24 * 60 && 0 <= s.end < 24 * 60 && s.start != s.end && 0 <= s.priority < 1001
  }

  lemma ScheduleExactly(s: Schedule, modeIds: set<string>)
    ensures FieldsOk(s, modeIds) <==> ScheduleMeets(s, modeIds)
  {
    NameExactly(s.id);
    NameExactly(s.modeId);
    assert All(IsDay(), s.days) <==> forall i :: 0 <= i < |s.days| ==> 0 < s.days[i] < 8;
    if FieldsOk(s, modeIds) {
      forall i, j | 0 <= i < j < |s.days| ensures s.days[i] != s.days[j] {
        assert Itself<int>()(s.days[i]) != Itself<int>()(s.days[j]);
      }
    }
  }

  /** No two schedules of one priority are active at a common minute. */
  ghost predicate Peaceful(schedules: seq<Schedule>) {
    forall i, j, day, minute ::
      0 <= i < j < |schedules| && schedules[i].priority == schedules[j].priority && IsInstant(day, minute) ==>
        !(Active(schedules[i], day, minute) && Active(schedules[j], day, minute))
  }

  ghost predicate CommonMeets(c: Common) {
    && Names(c.emergency, 256, PackageForm()) && 0 < |c.emergency| && Names(c.capabilities, 64, NameForm())
    && 0 < |c.modes| < 17 && (forall m :: m in c.modes ==> ModeMeets(c.emergency, m))
    && (forall i, j :: 0 <= i < j < |c.modes| ==> c.modes[i].id != c.modes[j].id)
    && (exists m :: m in c.modes && m.id == c.defaultMode)
    && |c.schedules| < 65 && (forall s :: s in c.schedules ==> ScheduleMeets(s, Ids(c.modes)))
    && (forall i, j :: 0 <= i < j < |c.schedules| ==> c.schedules[i].id != c.schedules[j].id)
    && Peaceful(c.schedules)
    && 5 * 60 <= c.refresh <= 7 * 24 * 60 * 60 && 0 < c.minimumDpc < 0x8000_0000
  }

  lemma ModesExactly(emergency: seq<string>, modes: seq<Mode>)
    ensures ModesOk(emergency, modes)
       <==> 0 < |modes| < 17 && (forall m :: m in modes ==> ModeMeets(emergency, m))
            && (forall i, j :: 0 <= i < j < |modes| ==> modes[i].id != modes[j].id)
  {
    forall m ensures ModeCheck(emergency)(m) <==> ModeMeets(emergency, m) {
      ModeExactly(emergency, m);
    }
    assert All(ModeCheck(emergency), modes) <==> forall m :: m in modes ==> ModeMeets(emergency, m);
    assert DistinctBy(ModeId(), modes) <==> forall i, j :: 0 <= i < j < |modes| ==> modes[i].id != modes[j].id by {
      assert forall i :: 0 <= i < |modes| ==> ModeId()(modes[i]) == modes[i].id;
    }
  }

  lemma SchedulesExactly(schedules: seq<Schedule>, modeIds: set<string>)
    ensures Acceptable(schedules, modeIds)
       <==> |schedules| < 65 && (forall s :: s in schedules ==> ScheduleMeets(s, modeIds))
            && (forall i, j :: 0 <= i < j < |schedules| ==> schedules[i].id != schedules[j].id) && Peaceful(schedules)
  {
    forall s ensures FieldsOk(s, modeIds) <==> ScheduleMeets(s, modeIds) {
      ScheduleExactly(s, modeIds);
    }
    PeacefulExactly(schedules);
  }

  lemma PeacefulExactly(schedules: seq<Schedule>)
    ensures Peaceful(schedules)
       <==> forall i, j :: 0 <= i < j < |schedules| ==> !PolicySchedules.Collide(schedules[i], schedules[j])
  {
    if Peaceful(schedules) {
      forall i, j | 0 <= i < j < |schedules| ensures !PolicySchedules.Collide(schedules[i], schedules[j]) {
      }
    }
    if forall i, j :: 0 <= i < j < |schedules| ==> !PolicySchedules.Collide(schedules[i], schedules[j]) {
      forall i, j, day, minute
        | 0 <= i < j < |schedules| && schedules[i].priority == schedules[j].priority && IsInstant(day, minute)
        ensures !(Active(schedules[i], day, minute) && Active(schedules[j], day, minute))
      {
        assert !PolicySchedules.Collide(schedules[i], schedules[j]);
        assert !BothActive(schedules[i], schedules[j], day, minute);
      }
    }
  }

  lemma CommonExactly(c: Common)
    ensures CommonOk(c) <==> CommonMeets(c)
  {
    PackagesExactly(c.emergency, 256);
    NameListExactly(c.capabilities, 64);
    ModesExactly(c.emergency, c.modes);
    SchedulesExactly(c.schedules, Ids(c.modes));
    if ModesOk(c.emergency, c.modes) {
      ModeNames(c.emergency, c.modes);
      DefaultExactly(c.modes, c.defaultMode);
    }
  }

  lemma ModeNames(emergency: seq<string>, modes: seq<Mode>)
    requires ModesOk(emergency, modes)
    ensures forall m :: m in modes ==> IsName(m.id)
  {
    ModesExactly(emergency, modes);
  }

  lemma DefaultExactly(modes: seq<Mode>, id: string)
    requires forall m :: m in modes ==> IsName(m.id)
    ensures IsIdentifier(id) && id in Ids(modes) <==> exists m :: m in modes && m.id == id
  {
    NameExactly(id);
  }

  // ----- texts and domains

  lemma {:induction false} LStripSkips(space: char -> bool, a: string, rest: string)
    requires AllSpace(space, a)
    ensures LStrip(space, a + rest) == LStrip(space, rest)
  {
    if a == "" {
      assert a + rest == rest;
    } else {
      LStripSkips(space, a[1..], rest);
      assert (a + rest)[1..] == a[1..] + rest;
    }
  }

  lemma {:induction false} RStripSkips(space: char -> bool, front: string, b: string)
    requires AllSpace(space, b)
    ensures RStrip(space, front + b) == RStrip(space, front)
  {
    if b == "" {
      assert front + b == front;
    } else {
      var n := |b| - 1;
      RStripSkips(space, front, b[..n]);
      assert (front + b)[..|front + b| - 1] == front + b[..n];
    }
  }

  /** There is one way to strip a text. */
  lemma StrippedExactly(space: char -> bool, s: string, t: string)
    ensures Stripped(space, s, t) <==> t == Strip(space, s)
  {
    StripStrips(space, s);
    if Stripped(space, s, t) {
      var a, b :| s == a + t + b && AllSpace(space, a) && AllSpace(space, b);
      assert s == a + (t + b);
      LStripSkips(space, a, t + b);
      if t == "" {
        assert t + b == b && b + "" == b;
        LStripSkips(space, b, "");
      } else {
        RStripSkips(space, t, b);
      }
    }
  }

  /** Between the white space around it the text has 1 to `most` characters. */
  ghost predicate TextFits(u: Unicode, s: string, most: nat) {
    exists t :: Stripped(u.space, s, t) && 0 < |t| <= most
  }

  lemma TextExactly(u: Unicode, s: string, most: nat)
    ensures TextFits(u, s, most) <==> 1 <= |Strip(u.space, s)| <= most
  {
    StrippedExactly(u.space, s, Strip(u.space, s));
    if t :| Stripped(u.space, s, t) && 0 < |t| <= most {
      StrippedExactly(u.space, s, t);
    }
  }

  /** 1 to 63 lower-case letters, digits and hyphens, no hyphen at an end. */
  predicate IsDomainLabel(s: string) {
    && 0 < |s| < 64 && s[0] != '-' && s[|s| - 1] != '-'
    && forall i :: 0 <= i < |s| ==> 'a' <= s[i] <= 'z' || '0' <= s[i] <= '9' || s[i] == '-'
  }

  /** Labels and a last part of 2 to 63 letters, joined by dots. */
  ghost predicate IsDomainName(d: string) {
    exists parts: seq<string> :: DomainParts(d, parts)
  }

  ghost predicate DomainParts(d: string, parts: seq<string>) {
    && |parts| >= 2 && d == Join(parts, '.') && (forall i :: 0 <= i < |parts| - 1 ==> IsDomainLabel(parts[i]))
    && var last := parts[|parts| - 1];
       1 < |last| < 64 && forall i :: 0 <= i < |last| ==> 'a' <= last[i] <= 'z'
  }

  lemma LabelExactly(s: string)
    ensures IsDomainLabel(s) <==> IsLabel(s)
    ensures IsDomainLabel(s) ==> '.' !in s
  {
    assert forall i :: 0 <= i < |s| ==> s[i] in s;
  }

  lemma DomainExactly(d: string)
    ensures IsDomain(d) <==> IsDomainName(d)
  {
    if IsDomain(d) {
      JoinSplit(d, '.');
      var parts := Split(d, '.');
      forall i | 0 <= i < |parts| - 1 ensures IsDomainLabel(parts[i]) {
        LabelExactly(parts[i]);
      }
      var last := parts[|parts| - 1];
      assert forall i :: 0 <= i < |last| ==> last[i] in last;
      assert DomainParts(d, parts);
    }
    if parts: seq<string> :| DomainParts(d, parts) {
      forall i | 0 <= i < |parts| ensures '.' !in parts[i] && (i < |parts| - 1 ==> IsLabel(parts[i])) {
        LabelExactly(parts[i]);
      }
      SplitJoin(parts, '.');
    }
  }

  lemma StripFixed(space: char -> bool, s: string)
    ensures s == Strip(space, s) <==> s == "" || (!space(s[0]) && !space(s[|s| - 1]))
  {
    StrippedExactly(space, s, s);
    assert s == "" + s + "";
  }

  /** A text without white space around it, slashes or colons, that denotes this domain. */
  ghost predicate DomainMeets(u: Unicode, s: string, d: string) {
    && (s != "" ==> !u.space(s[0]) && !u.space(s[|s| - 1])) && '/' !in s && ':' !in s
    && IsDomainName(d) && DomainOf(u, s, d)
  }

  lemma EndsOnce(s: string, body: string, dots: string)
    requires Ends(s, body, dots)
    ensures body == RStrip(IsDot(), s)
  {
    RStripSkips(IsDot(), body, dots);
  }

  lemma LowerOnce(s: string, d: string)
    requires LowerOf(s, d)
    ensures d == LowerAscii(s)
  {
  }

  /** When a domain is accepted, and as what. */
  lemma NormalDomainExactly(u: Unicode, s: string, d: string)
    ensures NormalDomain(u, s) == Some(d) <==> DomainMeets(u, s, d)
  {
    StripFixed(u.space, s);
    DomainExactly(d);
    if NormalDomain(u, s) == Some(d) {
      NormalDomainIsDomain(u, s);
    }
    if DomainMeets(u, s, d) {
      var body, dots :| Ends(s, body, dots) && u.idna(body).Some? && LowerOf(u.idna(body).value, d);
      EndsOnce(s, body, dots);
      LowerOnce(u.idna(body).value, d);
    }
  }

  // ----- the sections

  predicate AllPrinted(u: Unicode, s: string) { forall i :: 0 <= i < |s| ==> u.printable(s[i]) }

  ghost predicate RuleMeets(u: Unicode, r: Rule) {
    IsName(r.id) && (exists d :: DomainMeets(u, r.domain, d)) && 0 < |r.reason| < 257 && AllPrinted(u, r.reason)
  }

  lemma RuleExactly(u: Unicode, r: Rule)
    ensures RuleOk(u, r) <==> RuleMeets(u, r)
  {
    NameExactly(r.id);
    if NormalDomain(u, r.domain).Some? {
      NormalDomainExactly(u, r.domain, NormalDomain(u, r.domain).value);
    }
    if d :| DomainMeets(u, r.domain, d) {
      NormalDomainExactly(u, r.domain, d);
    }
  }

  /** The rules say something about the same domain with the same action. */
  ghost predicate SameTarget(u: Unicode, r: Rule, q: Rule) {
    r.action == q.action && exists d :: DomainMeets(u, r.domain, d) && DomainMeets(u, q.domain, d)
  }

  ghost predicate RulesMeet(u: Unicode, rules: seq<Rule>) {
    && |rules| < 257 && (forall r :: r in rules ==> RuleMeets(u, r))
    && forall i, j :: 0 <= i < j < |rules| ==> rules[i].id != rules[j].id && !SameTarget(u, rules[i], rules[j])
  }

  lemma TargetsExactly(u: Unicode, r: Rule, q: Rule)
    requires RuleOk(u, r) && RuleOk(u, q)
    ensures RuleTarget()(NormalRule(u)(r)) == RuleTarget()(NormalRule(u)(q)) <==> SameTarget(u, r, q)
  {
    var d, e := NormalDomain(u, r.domain).value, NormalDomain(u, q.domain).value;
    NormalDomainExactly(u, r.domain, d);
    NormalDomainExactly(u, q.domain, e);
    if c :| DomainMeets(u, r.domain, c) && DomainMeets(u, q.domain, c) {
      NormalDomainExactly(u, r.domain, c);
      NormalDomainExactly(u, q.domain, c);
    }
  }

  lemma RulesExactly(u: Unicode, rules: seq<Rule>)
    ensures RulesOk(u, rules) <==> RulesMeet(u, rules)
  {
    forall r ensures RuleCheck(u)(r) <==> RuleMeets(u, r) {
      RuleExactly(u, r);
    }
    assert All(RuleCheck(u), rules) <==> forall r :: r in rules ==> RuleMeets(u, r);
    if All(RuleCheck(u), rules) {
      RuleTargetsExactly(u, rules);
    }
  }

  lemma RuleTargetsExactly(u: Unicode, rules: seq<Rule>)
    requires All(RuleCheck(u), rules)
    ensures DistinctBy(RuleId(), rules) <==> forall i, j :: 0 <= i < j < |rules| ==> rules[i].id != rules[j].id
    ensures DistinctBy(RuleTarget(), Map(NormalRule(u), rules))
       <==> forall i, j :: 0 <= i < j < |rules| ==> !SameTarget(u, rules[i], rules[j])
  {
    var normal := Map(NormalRule(u), rules);
    forall i, j | 0 <= i < j < |rules|
      ensures RuleTarget()(normal[i]) == RuleTarget()(normal[j]) <==> SameTarget(u, rules[i], rules[j])
    {
      assert RuleCheck(u)(rules[i]) && RuleCheck(u)(rules[j]);
      TargetsExactly(u, rules[i], rules[j]);
    }
    assert forall i :: 0 <= i < |rules| ==> RuleId()(rules[i]) == rules[i].id;
  }

  ghost predicate AppsMeet(u: Unicode, apps: seq<App>) {
    && 0 < |apps| < 257
    && (forall a :: a in apps ==>
          IsUuid4(a.uuid) && TextFits(u, a.name, 120) && AllPrinted(u, a.name) && IsPackageName(a.package))
    && forall i, j :: 0 <= i < j < |apps| ==> apps[i].uuid != apps[j].uuid && apps[i].package != apps[j].package
  }

  lemma AppsExactly(u: Unicode, apps: seq<App>)
    ensures AppsOk(u, apps) <==> AppsMeet(u, apps)
  {
    forall a: App
      ensures AppCheck(u)(a) <==> IsUuid4(a.uuid) && TextFits(u, a.name, 120) && AllPrinted(u, a.name)
                                  && IsPackageName(a.package)
    {
      TextExactly(u, a.name, 120);
      PackageExactly(a.package);
    }
    assert All(AppCheck(u), apps) <==> forall a :: a in apps ==> AppCheck(u)(a);
    assert forall i :: 0 <= i < |apps| ==> AppUuid()(apps[i]) == apps[i].uuid && AppPackage()(apps[i]) == apps[i].package;
  }

  ghost predicate ScreenMeets(s: ScreenTime, modeIds: set<string>) {
    && 0 < s.limit <= 24 * 60 && 0 <= s.reset < 24 * 60 && s.exhausted in modeIds
    && OptionalPackages(s.targets, 256)
  }

  /** A device that is told who it belongs to names its school. */
  ghost predicate DeviceUseMeets(u: Unicode, d: DeviceUse) {
    && TextFits(u, d.supportMessage, 256) && AllPrinted(u, d.supportMessage)
    && (d.schoolName.Some? ==>
          d.displayName && TextFits(u, d.schoolName.value, 160) && AllPrinted(u, d.schoolName.value))
  }

  ghost predicate NotesMeet(u: Unicode, notes: string) {
    exists t :: Stripped(u.space, UnixLines(notes), t) && 0 < |t| < 2001
                && forall i :: 0 <= i < |t| ==> u.printable(t[i]) || t[i] == '\n' || t[i] == '\t'
  }

  predicate IsCode(s: string) {
    && 2 < |s| < 65 && 'A' <= s[0] <= 'Z'
    && forall i :: 0 <= i < |s| ==> 'A' <= s[i] <= 'Z' || '0' <= s[i] <= '9' || s[i] == '_'
  }

  /** A code and a description, or neither. */
  ghost predicate IdentityMeets(u: Unicode, code: Option<string>, description: Option<string>) {
    && code.Some? == description.Some?
    && (code.Some? ==> IsCode(code.value))
    && (description.Some? ==>
          exists t :: Stripped(u.space, description.value, t) && 0 < |t| < 2049 && AllPrinted(u, t))
  }

  ghost predicate OptionalSectionsMeet(u: Unicode, p: Policy) {
    && (p.deviceUse.Some? ==> DeviceUseMeets(u, p.deviceUse.value))
    && (p.apps.Some? ==> AppsMeet(u, p.apps.value))
    && (p.appControls.Some? ==> OptionalPackages(p.appControls.value.sharing, 256))
    && (p.notes.Some? ==> NotesMeet(u, p.notes.value)) && IdentityMeets(u, p.code, p.description)
  }

  /** Emergency calls stay possible, a lockdown has its filter, a screen locks within the offered times,
      compliance is reviewed monthly at least, the last policy stays in force without a network, and
      nothing about the learner is collected. */
  predicate DutiesMet(p: Policy) {
    && p.telephony.preserveEmergencyCalls
    && !(p.network.vpnLockdownRequired && !p.network.alwaysOnFilteringVpn)
    && (match p.screenLock case None => true case Some(l) => l.timeout in [1, 5, 10, 15, 30, 60])
    && (match p.compliance case None => true case Some(c) => 0 < c.reviewAfterDays < 31)
    && (match p.offline case None => true
        case Some(o) => o == Offline(true, true, true, true, false))
    && (match p.collection case None => true
        case Some(c) => c == Collection(true, true, true, true, true, false, false, false, false, false))
  }

  /** The sections agree with each other. */
  ghost predicate SectionsAgree(p: Policy) {
    && (p.settings.Some? ==>
          var s := p.settings.value;
          && s.allowMobileData && !p.network.wifiOnly && !p.network.disallowMobileConfiguration
          && s.allowHotspotCreation == !p.network.disallowTethering && s.allowVpnChanges == !p.network.disallowUserVpn
          && (p.restrictions.Some? ==>
                && s.allowNetworkReset == !p.restrictions.value.blockNetworkReset
                && (p.restrictions.value.blockWifiChanges ==> s.allowWifi)))
    && (p.deviceUse.Some? ==>
          && (p.deviceUse.value.kiosk ==> p.apps.Some? && exists i :: 0 <= i < |p.apps.value| && p.apps.value[i].kiosk)
          && (p.deviceUse.value.mode == Examination ==>
                p.restrictions.Some? && p.restrictions.value.disableCamera && p.restrictions.value.disableScreenshots
                && p.restrictions.value.disableMicrophone)
          && (p.apps.Some? ==> "io.github.sun808ey.edugd.dpc" in p.common.emergency))
  }

  lemma DutiesExactly(p: Policy)
    ensures PlainOk(p) <==> DutiesMet(p)
  {
  }

  lemma AgreementExactly(p: Policy)
    ensures CrossOk(p) <==> SectionsAgree(p)
  {
    if p.apps.Some? {
      assert (exists a :: a in p.apps.value && a.kiosk) <==>
        exists i :: 0 <= i < |p.apps.value| && p.apps.value[i].kiosk by {
        if a :| a in p.apps.value && a.kiosk {
          var i :| 0 <= i < |p.apps.value| && p.apps.value[i] == a;
        }
      }
    }
  }

  lemma DeviceUseExactly(u: Unicode, d: DeviceUse)
    ensures DeviceUseOk(u, d) <==> DeviceUseMeets(u, d)
  {
    TextExactly(u, d.supportMessage, 256);
    if d.schoolName.Some? {
      TextExactly(u, d.schoolName.value, 160);
    }
  }

  lemma NotesExactly(u: Unicode, notes: string)
    ensures NotesOk(u, notes) <==> NotesMeet(u, notes)
  {
    var lines := UnixLines(notes);
    StrippedExactly(u.space, lines, Strip(u.space, lines));
    if t :| Stripped(u.space, lines, t) && 0 < |t| < 2001
            && forall i :: 0 <= i < |t| ==> u.printable(t[i]) || t[i] == '\n' || t[i] == '\t' {
      StrippedExactly(u.space, lines, t);
    }
  }

  lemma IdentityExactly(u: Unicode, code: Option<string>, description: Option<string>)
    ensures IdentityOk(u, code, description) <==> IdentityMeets(u, code, description)
  {
    if code.Some? {
      assert forall i :: 0 <= i < |code.value| ==> code.value[i] in code.value;
    }
    if description.Some? {
      var d := description.value;
      StrippedExactly(u.space, d, Strip(u.space, d));
      if t :| Stripped(u.space, d, t) && 0 < |t| < 2049 && AllPrinted(u, t) {
        StrippedExactly(u.space, d, t);
      }
    }
  }

  lemma OptionalSectionsExactly(u: Unicode, p: Policy)
    ensures OptionalSectionsMeet(u, p)
       <==> (p.deviceUse.Some? ==> DeviceUseOk(u, p.deviceUse.value)) && (p.apps.Some? ==> AppsOk(u, p.apps.value))
            && (p.appControls.Some? ==> AppControlsOk(p.appControls.value))
            && (p.notes.Some? ==> NotesOk(u, p.notes.value)) && IdentityOk(u, p.code, p.description)
  {
    if p.deviceUse.Some? { DeviceUseExactly(u, p.deviceUse.value); }
    if p.apps.Some? { AppsExactly(u, p.apps.value); }
    if p.appControls.Some? { OptionalExactly(256, p.appControls.value.sharing); }
    if p.notes.Some? { NotesExactly(u, p.notes.value); }
    IdentityExactly(u, p.code, p.description);
  }

  /** Everything a payload needs. */
  ghost predicate Meets(u: Unicode, p: Policy) {
    && CommonMeets(p.common) && ScreenMeets(p.screen, Ids(p.common.modes))
    && RulesMeet(u, p.web.rules) && OptionalPackages(p.web.browsers, 64)
    && DutiesMet(p) && OptionalSectionsMeet(u, p) && SectionsAgree(p)
  }

  lemma SectionsExactly(u: Unicode, p: Policy)
    ensures SectionsOk(u, p)
       <==> ScreenMeets(p.screen, Ids(p.common.modes)) && RulesMeet(u, p.web.rules)
            && OptionalPackages(p.web.browsers, 64) && DutiesMet(p) && OptionalSectionsMeet(u, p)
  {
    assert ScreenOk(p.screen, Ids(p.common.modes)) <==> ScreenMeets(p.screen, Ids(p.common.modes)) by {
      OptionalExactly(256, p.screen.targets);
    }
    assert WebOk(u, p.web) <==> RulesMeet(u, p.web.rules) && OptionalPackages(p.web.browsers, 64) by {
      OptionalExactly(64, p.web.browsers);
      RulesExactly(u, p.web.rules);
    }
    DutiesExactly(p);
    OptionalSectionsExactly(u, p);
  }

  /** A payload is accepted exactly when it meets every requirement. */
  lemma AcceptedExactly(u: Unicode, p: Policy)
    ensures Validated(u, p).Ok? <==> Meets(u, p)
    ensures ValidatedCommon(p.common).Ok? <==> CommonMeets(p.common)
  {
    CommonExactly(p.common);
    SectionsExactly(u, p);
    AgreementExactly(p);
  }

  /** Where applications are approved for a device with a use, its controller may run at every minute. */
  lemma ControllerAlwaysRuns(u: Unicode, p: Policy, m: Mode, day: int, minute: int)
    requires Validated(u, p).Ok? && p.apps.Some? && p.deviceUse.Some? && IsInstant(day, minute)
    requires InForce(Validated(u, p).value.common, m, day, minute)
    ensures "io.github.sun808ey.edugd.dpc" in m.allowed && "io.github.sun808ey.edugd.dpc" !in m.blocked
  {
    ValidatedPolicyIsSafe(u, p, day, minute);
    ValidationKeeps(u, p);
    AgreementExactly(p);
    SameMembers(p.common.emergency, Validated(u, p).value.common.emergency);
  }
}
