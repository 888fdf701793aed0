/** Policies that are accepted and yet cannot be enveloped: a network section adds capabilities
    after the check that at most 64 are asked for. */
module PolicyCapacity {
  import opened Wrappers
  import opened Reordering
  import opened Text
  import opened PolicyNames
  import opened PolicyContract
  import opened PolicyCanonicalForm

  function Repeat(n: nat): (s: string)
    ensures |s| == n && forall c :: c in s ==> c == 'a'
  {
    if n == 0 then "" else Repeat(n - 1) + "a"
  }

  /** The identifiers "a", "aa" and so on. */
  function Capabilities(n: nat): (names: seq<string>)
    ensures |names| == n && forall i :: 0 <= i < n ==> names[i] == Repeat(i + 1)
  {
    if n == 0 then [] else Capabilities(n - 1) + [Repeat(n)]
  }

  function Packages(): seq<string> { ["a.b"] }

  function Controls(): DeviceControls { DeviceControls(false, false, false, false, false, false, false, false) }

  function OnlyMode(): Mode { Mode("m", Packages(), [], [], [], Controls()) }

  function Body(n: nat): Common { Common(Utc, 300, "m", Packages(), Capabilities(n), 1, [OnlyMode()], []) }

  /** One mode, one package, `n` capabilities and a network section that allows everything. */
  function Asking(n: nat): Policy {
    Policy(POLICY_SCHEMA_VERSION, Body(n), ScreenTime(60, 0, "m", None), WebFilter(Allow, [], None),
           NetworkControls(false, false, false, false, false, false), Telephony(false, false, true),
           None, None, None, None, None, Some(NetworkSettings(true, true, true, true, true, true)),
           None, None, None, None, None, None)
  }

  lemma PackageOk()
    ensures IsPackage("a.b") && NamesOk(Package(), MAX_PACKAGES_PER_LIST, Packages())
    ensures NamesOk(Package(), MAX_PACKAGES_PER_LIST, [])
    ensures NamesOk(Identifier(), MAX_CAPABILITIES, [])
  {
    SplitFirst("a", '.', "b");
    SplitWhole("b", '.');
    assert "a" + ['.'] + "b" == "a.b";
  }

  lemma CapabilitiesOk(n: nat)
    ensures NamesOk(Identifier(), MAX_CAPABILITIES, Capabilities(n)) <==> n <= MAX_CAPABILITIES
    ensures "network_settings" !in Capabilities(n)
  {
    var names := Capabilities(n);
    forall i, j | 0 <= i < j < n ensures names[i] != names[j] {
      assert |names[i]| == i + 1 && |names[j]| == j + 1;
    }
    assert Distinct(names);
    if n <= MAX_CAPABILITIES {
      forall i | 0 <= i < n ensures Identifier()(names[i]) {
        var name := names[i];
        assert name[0] in name && |name| == i + 1;
      }
    }
    var required := "network_settings";
    assert required[0] == 'n' && required[0] in required;
  }

  lemma AskingAccepted(u: Unicode, n: nat)
    ensures Validated(u, Asking(n)).Ok? <==> n <= MAX_CAPABILITIES
  {
    PackageOk();
    CapabilitiesOk(n);
  }

  /** A policy that asks for `n` capabilities beside a network section is accepted up to 64 of
      them and can be put into an envelope only below 64. */
  lemma LastCapabilityCannotBeEnveloped(u: Unicode, k: Crypto, policyUuid: string, revisionUuid: string,
                                        revisionNumber: int, issuedAt: string, keyId: string, n: nat)
    requires Lawful(u) && HeaderOk(k, policyUuid, revisionUuid, revisionNumber, issuedAt, keyId)
    ensures Validated(u, Asking(n)).Ok? <==> n <= MAX_CAPABILITIES
    ensures Build(u, k, policyUuid, revisionUuid, revisionNumber, issuedAt, keyId, Asking(n)).Ok?
       <==> n < MAX_CAPABILITIES
  {
    AskingAccepted(u, n);
    CapabilitiesOk(n);
    BuildAccepts(u, k, policyUuid, revisionUuid, revisionNumber, issuedAt, keyId, Asking(n));
  }
}
