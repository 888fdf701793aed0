/** `validate_policy_v2` and `validate_policy_v3` (`backend/app/policy_contract.py` and
    `backend/app/policy_contract_v3.py`): validation that also normalises, on payloads that
    have the expected keys, value types and enumerated words. All refusals are the one
    `PolicyContractError`. */
module PolicyContract {
  import opened Wrappers
  import opened Ordering
  import opened Reordering
  import opened Base64Url
  import opened PolicyNames
  import opened PolicySchedules

  const MAX_MODES := 16
  const MAX_PACKAGES_PER_LIST := 256
  const MAX_CAPABILITIES := 64
  const MAX_RULES := 256
  const MAX_BROWSERS := 64
  const MAX_NOTES := 2000
  const MAX_INT := 2_147_483_647
  const POLICY_SCHEMA_VERSION := 3
  const DPC_PACKAGE := "io.github.sun808ey.edugd.dpc"

  /** The Unicode tables the validator consults. */
  datatype Unicode = Unicode(space: char -> bool, printable: char -> bool, idna: string -> Option<string>)

  /** What is used of them: letters and digits are not whitespace, and IDNA leaves a lower-case
      ASCII domain alone. */
  ghost predicate Lawful(u: Unicode) {
    && (forall c :: IsLower(c) || IsDecimal(c) ==> !u.space(c))
    && (forall d :: IsDomain(d) ==> u.idna(d) == Some(d))
  }

  datatype Timezone = Kampala | Nairobi | Utc

  datatype Action = Allow | Block

  datatype DeviceControls = DeviceControls(
    cameraDisabled: bool, screenCaptureDisabled: bool, unknownSourcesDisabled: bool, factoryResetDisabled: bool,
    safeBootDisabled: bool, addUsersDisabled: bool, accountChangesDisabled: bool, usbFileTransferDisabled: bool)

  datatype Mode = Mode(id: string, allowed: seq<string>, blocked: seq<string>, lockTask: seq<string>,
                       restrictions: seq<string>, controls: DeviceControls)

  datatype Common = Common(timezone: Timezone, refresh: int, defaultMode: string, emergency: seq<string>,
                           capabilities: seq<string>, minimumDpc: int, modes: seq<Mode>, schedules: seq<Schedule>)

  datatype ScreenTime = ScreenTime(limit: int, reset: int, exhausted: string, targets: Option<seq<string>>)

  datatype Rule = Rule(id: string, domain: string, subdomains: bool, action: Action, reason: string)

  datatype WebFilter = WebFilter(defaultAction: Action, rules: seq<Rule>, browsers: Option<seq<string>>)

  datatype NetworkControls = NetworkControls(
    wifiOnly: bool, disallowMobileConfiguration: bool, disallowTethering: bool, disallowUserVpn: bool,
    alwaysOnFilteringVpn: bool, vpnLockdownRequired: bool)

  datatype Telephony = Telephony(disallowOutgoingCalls: bool, disallowSms: bool, preserveEmergencyCalls: bool)

  datatype UseMode = NormalManaged | DedicatedLearning | Examination

  datatype DeviceUse = DeviceUse(mode: UseMode, kiosk: bool, displayName: bool, schoolName: Option<string>,
                                 supportMessage: string)

  datatype AppKind = Learning | Textbook | PdfReader | Calculator | Browser | Accessibility | Other

  datatype App = App(uuid: string, name: string, package: string, kind: AppKind, required: bool, kiosk: bool)

  datatype AppControls = AppControls(
    installOthers: bool, installUnknown: bool, uninstallApproved: bool, disableApproved: bool, playStore: bool,
    fileSharing: bool, sharing: Option<seq<string>>)

  datatype Restrictions = Restrictions(
    blockFactoryReset: bool, blockSafeMode: bool, blockDebugging: bool, blockUsbTransfer: bool,
    blockAccountChanges: bool, blockUserSwitching: bool, blockNetworkReset: bool, blockWifiChanges: bool,
    disableScreenshots: bool, disableScreenRecording: bool, disableCamera: bool, disableMicrophone: bool,
    disableLocation: bool)

  datatype ScreenLock = ScreenLock(require: bool, timeout: int, biometric: bool, learnerChange: bool)

  datatype NetworkSettings = NetworkSettings(
    allowWifi: bool, allowMobileData: bool, allowBluetooth: bool, allowHotspotCreation: bool,
    allowVpnChanges: bool, allowNetworkReset: bool)

  datatype Compliance = Compliance(
    deviceEnrolled: bool, dpcActive: bool, policyVersionCurrent: bool, learningApplicationInstalled: bool,
    kioskModeActive: bool, unknownSourcesBlocked: bool, factoryResetRestricted: bool, restrictionsApplied: bool,
    reviewAfterDays: int)

  datatype Offline = Offline(
    enforceLastPolicy: bool, storeLocalCopy: bool, queueEvents: bool, applyAfterReconnection: bool,
    expireWhenOffline: bool)

  datatype Collection = Collection(
    assetNumber: bool, policyVersion: bool, lastSynchronisation: bool, complianceResult: bool,
    administrativeActions: bool, learnerLocation: bool, privateMessages: bool, photographs: bool,
    microphone: bool, browsingHistory: bool)

  datatype Policy = Policy(
    schemaVersion: int, common: Common, screen: ScreenTime, web: WebFilter, network: NetworkControls,
    telephony: Telephony, deviceUse: Option<DeviceUse>, apps: Option<seq<App>>, appControls: Option<AppControls>,
    restrictions: Option<Restrictions>, screenLock: Option<ScreenLock>, settings: Option<NetworkSettings>,
    compliance: Option<Compliance>, offline: Option<Offline>, notes: Option<string>,
    collection: Option<Collection>, code: Option<string>, description: Option<string>)

  // ----- text

  function LStrip(space: char -> bool, s: string): string {
    if s != "" && space(s[0]) then LStrip(space, s[1..]) else s
  }

  function RStrip(space: char -> bool, s: string): string {
    if s != "" && space(s[|s| - 1]) then RStrip(space, s[..|s| - 1]) else s
  }

  function Strip(space: char -> bool, s: string): string { RStrip(space, LStrip(space, s)) }

  predicate AllPrintable(u: Unicode, s: string) { forall i :: 0 <= i < |s| ==> u.printable(s[i]) }

  /** `replace("\r\n", "\n").replace("\r", "\n")` */
  function UnixLines(s: string): string {
    if s == "" then ""
    else if s[0] == '\r' then "\n" + UnixLines(if |s| > 1 && s[1] == '\n' then s[2..] else s[1..])
    else [s[0]] + UnixLines(s[1..])
  }

  function LowerAscii(s: string): string {
    Map((c: char) => if IsUpper(c) then (c as int + 32) as char else c, s)
  }

  function IsDot(): char -> bool { (c: char) => c == '.' }

  function NormalDomain(u: Unicode, value: string): Option<string> {
    if value != Strip(u.space, value) || '/' in value || ':' in value then None
    else
      match u.idna(RStrip(IsDot(), value))
      case None => None
      case Some(d) => if IsDomain(LowerAscii(d)) then Some(LowerAscii(d)) else None
  }

  // ----- lists of names

  function Package(): string -> bool { (s: string) => IsPackage(s) }
  function Identifier(): string -> bool { (s: string) => IsIdentifier(s) }

  ghost predicate NamesOk(ok: string -> bool, most: nat, xs: seq<string>) {
    |xs| <= most && All(ok, xs) && Distinct(xs)
  }

  function Sorted(xs: seq<string>): seq<string> { Sort(ByKey(Itself<string>()), xs) }

  ghost predicate OptionalNamesOk(most: nat, xs: Option<seq<string>>) {
    xs.Some? ==> NamesOk(Package(), most, xs.value)
  }

  function SortedOption(xs: Option<seq<string>>): Option<seq<string>> {
    match xs case None => None case Some(v) => Some(Sorted(v))
  }

  ghost predicate Within(xs: seq<string>, ys: seq<string>) { forall x :: x in xs ==> x in ys }

  // ----- modes

  ghost predicate ModeOk(emergency: seq<string>, m: Mode) {
    && IsIdentifier(m.id)
    && NamesOk(Package(), MAX_PACKAGES_PER_LIST, m.allowed)
    && NamesOk(Package(), MAX_PACKAGES_PER_LIST, m.blocked)
    && NamesOk(Package(), MAX_PACKAGES_PER_LIST, m.lockTask)
    && (forall x :: x in m.allowed ==> x !in m.blocked)
    && Within(emergency, m.allowed) && Within(m.lockTask, m.allowed)
    && NamesOk(Identifier(), MAX_CAPABILITIES, m.restrictions)
  }

  function NormalMode(): Mode -> Mode {
    (m: Mode) => m.(allowed := Sorted(m.allowed), blocked := Sorted(m.blocked), lockTask := Sorted(m.lockTask),
                    restrictions := Sorted(m.restrictions))
  }

  function ModeId(): Mode -> string { (m: Mode) => m.id }

  ghost function ModeCheck(emergency: seq<string>): Mode -> bool { (m: Mode) => ModeOk(emergency, m) }

  ghost predicate ModesOk(emergency: seq<string>, modes: seq<Mode>) {
    1 <= |modes| <= MAX_MODES && All(ModeCheck(emergency), modes) && DistinctBy(ModeId(), modes)
  }

  function Ids(modes: seq<Mode>): set<string> { set m | m in modes :: m.id }

  // ----- the common body

  ghost predicate CommonOk(c: Common) {
    && NamesOk(Package(), MAX_PACKAGES_PER_LIST, c.emergency) && c.emergency != []
    && NamesOk(Identifier(), MAX_CAPABILITIES, c.capabilities)
    && ModesOk(c.emergency, c.modes)
    && IsIdentifier(c.defaultMode) && c.defaultMode in Ids(c.modes)
    && Acceptable(c.schedules, Ids(c.modes))
    && 300 <= c.refresh <= 604_800
    && 1 <= c.minimumDpc <= MAX_INT
  }

  function NormalCommon(c: Common): Common {
    c.(emergency := Sorted(c.emergency), capabilities := Sorted(c.capabilities),
       modes := Sort(ByKey(ModeId()), Map(NormalMode(), c.modes)),
       schedules := Sort(ByKey(Id()), Map(Normal(), c.schedules)))
  }

  /** `validate_policy_v2` as a specification. */
  ghost function ValidatedCommon(c: Common): Result<Common> {
    if CommonOk(c) then Ok(NormalCommon(c)) else Err
  }

  // ----- the sections of version 3

  ghost predicate RuleOk(u: Unicode, r: Rule) {
    && IsIdentifier(r.id) && NormalDomain(u, r.domain).Some?
    && 1 <= |r.reason| <= 256 && AllPrintable(u, r.reason)
  }

  ghost function RuleCheck(u: Unicode): Rule -> bool { (r: Rule) => RuleOk(u, r) }

  function NormalRule(u: Unicode): Rule -> Rule {
    (r: Rule) => if NormalDomain(u, r.domain).Some? then r.(domain := NormalDomain(u, r.domain).value) else r
  }

  function RuleId(): Rule -> string { (r: Rule) => r.id }
  function RuleTarget(): Rule -> (string, Action) { (r: Rule) => (r.domain, r.action) }

  ghost predicate RulesOk(u: Unicode, rules: seq<Rule>) {
    && |rules| <= MAX_RULES && All(RuleCheck(u), rules)
    && DistinctBy(RuleId(), rules) && DistinctBy(RuleTarget(), Map(NormalRule(u), rules))
  }

  function NormalRules(u: Unicode, rules: seq<Rule>): seq<Rule> { Sort(ByKey(RuleId()), Map(NormalRule(u), rules)) }

  ghost predicate AppOk(u: Unicode, a: App) {
    && IsUuid4(a.uuid) && 1 <= |Strip(u.space, a.name)| <= 120 && AllPrintable(u, a.name)
    && IsPackage(a.package)
  }

  ghost function AppCheck(u: Unicode): App -> bool { (a: App) => AppOk(u, a) }

  function NormalApp(u: Unicode): App -> App { (a: App) => a.(name := Strip(u.space, a.name)) }

  function AppUuid(): App -> string { (a: App) => a.uuid }
  function AppPackage(): App -> string { (a: App) => a.package }

  ghost predicate AppsOk(u: Unicode, apps: seq<App>) {
    && 1 <= |apps| <= 256 && All(AppCheck(u), apps)
    && DistinctBy(AppUuid(), apps) && DistinctBy(AppPackage(), apps)
  }

  function NormalApps(u: Unicode, apps: seq<App>): seq<App> { Sort(ByKey(AppPackage()), Map(NormalApp(u), apps)) }

  predicate BoundedText(u: Unicode, s: string, most: nat) {
    1 <= |Strip(u.space, s)| <= most && AllPrintable(u, s)
  }

  predicate DeviceUseOk(u: Unicode, d: DeviceUse) {
    && BoundedText(u, d.supportMessage, 256)
    && (d.schoolName.Some? ==> BoundedText(u, d.schoolName.value, 160) && d.displayName)
  }

  function NormalDeviceUse(u: Unicode, d: DeviceUse): DeviceUse {
    d.(supportMessage := Strip(u.space, d.supportMessage),
       schoolName := match d.schoolName case None => None case Some(s) => Some(Strip(u.space, s)))
  }

  function NormalNotes(u: Unicode, notes: string): string { Strip(u.space, UnixLines(notes)) }

  predicate NotesOk(u: Unicode, notes: string) {
    var n := NormalNotes(u, notes);
    1 <= |n| <= MAX_NOTES && forall i :: 0 <= i < |n| ==> u.printable(n[i]) || n[i] in "\n\t"
  }

  predicate SettingsOk(s: NetworkSettings, controls: NetworkControls, restrictions: Option<Restrictions>) {
    && s.allowMobileData && !controls.wifiOnly && !controls.disallowMobileConfiguration
    && controls.disallowTethering != s.allowHotspotCreation
    && controls.disallowUserVpn != s.allowVpnChanges
    && (restrictions.Some? ==> restrictions.value.blockNetworkReset != s.allowNetworkReset)
  }

  predicate OfflineOk(o: Offline) {
    o.enforceLastPolicy && o.storeLocalCopy && o.queueEvents && o.applyAfterReconnection && !o.expireWhenOffline
  }

  predicate CollectionOk(c: Collection) {
    && c.assetNumber && c.policyVersion && c.lastSynchronisation && c.complianceResult && c.administrativeActions
    && !c.learnerLocation && !c.privateMessages && !c.photographs && !c.microphone && !c.browsingHistory
  }

  predicate IdentityOk(u: Unicode, code: Option<string>, description: Option<string>) {
    match (code, description)
    case (None, None) => true
    case (Some(c), Some(d)) =>
      IsPolicyCode(c) && 1 <= |Strip(u.space, d)| <= 2048 && AllPrintable(u, Strip(u.space, d))
    case _ => false
  }

  predicate HasKioskApp(apps: Option<seq<App>>) { apps.Some? && exists a :: a in apps.value && a.kiosk }

  /** Checks that name several sections at once. */
  predicate CrossOk(p: Policy) {
    && (p.settings.Some? ==> SettingsOk(p.settings.value, p.network, p.restrictions))
    && (p.deviceUse.Some? && p.deviceUse.value.kiosk ==> HasKioskApp(p.apps))
    && (p.deviceUse.Some? && p.deviceUse.value.mode == Examination ==>
          p.restrictions.Some? && p.restrictions.value.disableCamera && p.restrictions.value.disableScreenshots
          && p.restrictions.value.disableMicrophone)
    && (p.settings.Some? && p.restrictions.Some? && p.restrictions.value.blockWifiChanges ==>
          p.settings.value.allowWifi)
    && (p.apps.Some? && p.deviceUse.Some? ==> DPC_PACKAGE in p.common.emergency)
  }

  ghost predicate ScreenOk(s: ScreenTime, modeIds: set<string>) {
    && 1 <= s.limit <= 1440 && 0 <= s.reset <= 1439 && s.exhausted in modeIds
    && OptionalNamesOk(MAX_PACKAGES_PER_LIST, s.targets)
  }

  ghost predicate WebOk(u: Unicode, w: WebFilter) {
    OptionalNamesOk(MAX_BROWSERS, w.browsers) && RulesOk(u, w.rules)
  }

  ghost predicate AppControlsOk(c: AppControls) { OptionalNamesOk(MAX_PACKAGES_PER_LIST, c.sharing) }

  /** Sections without lists or text. */
  predicate PlainOk(p: Policy) {
    && (p.network.vpnLockdownRequired ==> p.network.alwaysOnFilteringVpn)
    && p.telephony.preserveEmergencyCalls
    && (p.screenLock.Some? ==> p.screenLock.value.timeout in {1, 5, 10, 15, 30, 60})
    && (p.compliance.Some? ==> 1 <= p.compliance.value.reviewAfterDays <= 30)
    && (p.offline.Some? ==> OfflineOk(p.offline.value))
    && (p.collection.Some? ==> CollectionOk(p.collection.value))
  }

  ghost predicate SectionsOk(u: Unicode, p: Policy) {
    && ScreenOk(p.screen, Ids(p.common.modes)) && WebOk(u, p.web) && PlainOk(p)
    && (p.deviceUse.Some? ==> DeviceUseOk(u, p.deviceUse.value))
    && (p.apps.Some? ==> AppsOk(u, p.apps.value))
    && (p.appControls.Some? ==> AppControlsOk(p.appControls.value))
    && (p.notes.Some? ==> NotesOk(u, p.notes.value))
    && IdentityOk(u, p.code, p.description)
  }

  function AddMissing(xs: seq<string>, x: string): seq<string> { if x in xs then xs else xs + [x] }

  /** The capabilities a network section requires are added to those asked for. */
  function Closure(capabilities: seq<string>, settings: Option<NetworkSettings>): seq<string> {
    match settings
    case None => capabilities
    case Some(s) =>
      var more := AddMissing(capabilities, "network_settings");
      if s.allowWifi then more else AddMissing(more, "wifi_state_control")
  }

  function ClosedCommon(c: Common, settings: Option<NetworkSettings>): Common {
    var n := NormalCommon(c);
    n.(capabilities := Sorted(Closure(n.capabilities, settings)))
  }

  function NormalScreen(s: ScreenTime): ScreenTime { s.(targets := SortedOption(s.targets)) }

  function NormalWeb(u: Unicode, w: WebFilter): WebFilter {
    w.(rules := NormalRules(u, w.rules), browsers := SortedOption(w.browsers))
  }

  /** The list of file-sharing packages is always present in the output. */
  function NormalAppControls(c: AppControls): AppControls {
    c.(sharing := Some(Sorted(if c.sharing.Some? then c.sharing.value else [])))
  }

  function NormalPolicy(u: Unicode, p: Policy): Policy {
    p.(schemaVersion := POLICY_SCHEMA_VERSION,
       common := ClosedCommon(p.common, p.settings),
       screen := NormalScreen(p.screen),
       web := NormalWeb(u, p.web),
       deviceUse := match p.deviceUse case None => None case Some(d) => Some(NormalDeviceUse(u, d)),
       apps := match p.apps case None => None case Some(a) => Some(NormalApps(u, a)),
       appControls := match p.appControls case None => None case Some(c) => Some(NormalAppControls(c)),
       notes := match p.notes case None => None case Some(n) => Some(NormalNotes(u, n)),
       description := match p.description case None => None case Some(d) => Some(Strip(u.space, d)))
  }

  /** `validate_policy_v3` as a specification: which payloads are accepted, and as what. */
  ghost function Validated(u: Unicode, p: Policy): Result<Policy> {
    if CommonOk(p.common) && SectionsOk(u, p) && CrossOk(p) then Ok(NormalPolicy(u, p)) else Err
  }
}
