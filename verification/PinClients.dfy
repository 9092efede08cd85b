/**
 The registry: all its pins but claude.betas, whose value spans lines. Each is covered by
 the round trip, whatever the text and the value.
 */
module PinClients {
  import opened Options
  import opened Pins
  import opened PinTokens
  import opened PinWrites
  import opened PinRoundTrip
  import opened PinRegistry

  const ClientGo := "internal/cloudcode/client.go"
  const DefaultsGo := "internal/ccidentity/defaults.go"
  const ApplyGo := "internal/ccidentity/apply.go"
  const ApplyTest := "internal/ccidentity/apply_test.go"
  const ProxyTest := "internal/api/ccidentity_proxy_test.go"
  const ClaudeTest := "internal/claudecode/client_test.go"
  const SettingsHtml := "internal/webui/public/views/settings.html"
  const ClaudeTls := ".reference/claude-code-tls-20261020.json"
  const ClaudeGo := "internal/transport/claudecode.go"
  const IdentityScript := "scripts/verify-claude-code-identity.sh"
  const Ja4Script := "scripts/verify-ja4.sh"
  const ZenScript := "scripts/verify-zen-tls.sh"
  const HarnessGo := "internal/zen/harness.go"
  const HarnessTest := "internal/zen/harness_test.go"
  const ConfigTest := "internal/config/config_test.go"
  const HarnessMjs := "internal/webui/tests/zen-harness-identity.test.mjs"
  const ZenTlsTest := "internal/zen/tls_test.go"
  const Readme := "README.md"

  // ------------------------------------------------------------ agy

  ghost const AgyVersion := VersionPin([
    Site(ClientGo, Around("DefaultUserAgentVersion = \"", "\""), 1)])

  lemma UserAgentVersion(pin: Pin)
    requires Versions(pin)
    ensures Quiet(pin, Around("DefaultUserAgentVersion = \"", "\""), "")
  {
    hide Versions, Quiet;
    QuietVersion(pin, "DefaultUserAgentVersion = \"", "\"", "");
  }

  lemma AgyVersionCovered()
    ensures Covered(AgyVersion)
  {
    hide Versions, ValidPattern, Quiet, Untailed, IsVersion, Covered;
    assert ValidPattern(AgyVersion) && Versions(AgyVersion) by {
      VersionPattern(AgyVersion);
    }
    UserAgentVersion(AgyVersion);
    QuietIsCovered(AgyVersion, "");
  }

  ghost const AgyCl := RunPin(Digit, [
    Site(ClientGo, AroundGap("AgyBuildCL", Space, "= \"", "\""), 1)])

  lemma AgyClCovered()
    ensures Covered(AgyCl)
  {
    hide Needs, ValidPattern, Quiet, Covered, AllOf;
    assert ValidPattern(AgyCl) && Needs(AgyCl, Digit) by {
      RunPattern(AgyCl, Digit);
    }
    GapQuietByLack(AgyCl, "AgyBuildCL", Space, "= \"", "\"", Digit);
    QuietIsCovered(AgyCl, "");
  }

  /** The first literal holds runs that could be values; no other site reads its file. */
  ghost const AgyAuthMethod := RunPin(LowerOrUnderscore, [
    Site(ClientGo, AroundGap("AgyAuthMethod", Space, "= \"", "\""), 1)])

  lemma AgyAuthMethodCovered()
    ensures Covered(AgyAuthMethod)
  {
    hide ValidPattern, Shape, LiteralsHoldNone, HoldsNoValue, Needs, Covered, AllOf;
    var pin := AgyAuthMethod;
    assert ValidPattern(pin) && Needs(pin, LowerOrUnderscore) by {
      RunPattern(pin, LowerOrUnderscore);
    }
    assert LiteralsHoldNone(pin, Around("= \"", "\"")) by {
      LacksNeeded(pin, "= \"", LowerOrUnderscore);
      LacksNeeded(pin, "\"", LowerOrUnderscore);
      AroundHoldsNone(pin, "= \"", "\"");
    }
    assert Shape(pin, AroundGap("AgyAuthMethod", Space, "= \"", "\""), "") by {
      GapShaped(pin, "AgyAuthMethod", Space, "= \"", "\"", "");
    }
    AloneIsCovered(pin, "");
  }

  ghost const AgyJa4 := Ja4Pin([
    Site(Ja4Script, Around("EXPECTED_JA4=\"", "\""), 1),
    Site(Ja4Script, Around("#   ", ""), 1),
    Site(Readme, Around("JA4 fingerprint (`", "`)"), 1),
    Site(Readme, Around("- JA4 `", "`"), 1)])

  lemma AgyJa4Covered()
    ensures Covered(AgyJa4)
  {
    hide ValidPattern, Covered, IsJa4;
    assert ValidPattern(AgyJa4) by {
      Ja4Pattern(AgyJa4);
    }
    BriefIsCovered(AgyJa4);
  }

  // ------------------------------------------------------------ claude

  ghost const ClaudeVersion := VersionPin([
    Site(DefaultsGo, Around("ClientVersion = \"", "\""), 1),
    Site(DefaultsGo, Around("MessagesUserAgent = \"claude-cli/", " (external, sdk-cli)\""), 1),
    Site(DefaultsGo, Around("DiscoveryUserAgent = \"claude-code/", "\""), 1),
    Site(DefaultsGo, Around("\"claude-cli/", " (external, cli)\""), 1),
    Site(ApplyTest, Around("\"claude-cli/", " (external, cli)\""), 1),
    Site(ProxyTest, Around("\"claude-cli/", " (external, cli)\""), 1),
    Site(ProxyTest, Around("cc_version=", ".\")"), 1),
    Site(ClaudeTest, Around("cc_version=", ".\")"), 1),
    Site(ClaudeTest, Around("records claude-code/", " on every GET"), 1),
    Site(SettingsHtml, Around("placeholder=\"claude-cli/", " (external, sdk-cli)\""), 1),
    Site(ClaudeTls, Around("\"client\": \"claude-code/", "\""), 1)])

  lemma ClientVersions(pin: Pin)
    requires Versions(pin)
    ensures Quiet(pin, Around("ClientVersion = \"", "\""), ".")
    ensures Quiet(pin, Around("\"claude-cli/", " (external, cli)\""), ".")
  {
    hide Versions, Quiet;
    QuietVersion(pin, "ClientVersion = \"", "\"", ".");
    QuietVersion(pin, "\"claude-cli/", " (external, cli)\"", ".");
  }

  lemma MessagesVersion(pin: Pin)
    requires Versions(pin)
    ensures Quiet(pin, Around("MessagesUserAgent = \"claude-cli/", " (external, sdk-cli)\""), ".")
  {
    hide Versions, Quiet;
    QuietVersion(pin, "MessagesUserAgent = \"claude-cli/", " (external, sdk-cli)\"", ".");
  }

  lemma DiscoveryVersion(pin: Pin)
    requires Versions(pin)
    ensures Quiet(pin, Around("DiscoveryUserAgent = \"claude-code/", "\""), ".")
  {
    hide Versions, Quiet;
    QuietVersion(pin, "DiscoveryUserAgent = \"claude-code/", "\"", ".");
  }

  lemma ClaudeTestVersion(pin: Pin)
    requires Versions(pin)
    ensures Quiet(pin, Around("records claude-code/", " on every GET"), ".")
  {
    hide Versions, Quiet;
    QuietVersion(pin, "records claude-code/", " on every GET", ".");
  }

  lemma SettingsVersion(pin: Pin)
    requires Versions(pin)
    ensures Quiet(pin, Around("placeholder=\"claude-cli/", " (external, sdk-cli)\""), ".")
  {
    hide Versions, Quiet;
    QuietVersion(pin, "placeholder=\"claude-cli/", " (external, sdk-cli)\"", ".");
  }

  lemma ReferenceVersion(pin: Pin)
    requires Versions(pin)
    ensures Quiet(pin, Around("\"client\": \"claude-code/", "\""), ".")
  {
    hide Versions, Quiet;
    QuietVersion(pin, "\"client\": \"claude-code/", "\"", ".");
  }

  lemma CcVersion(pin: Pin)
    requires Versions(pin)
    ensures Quiet(pin, Around("cc_version=", ".\")"), ".")
  {
    hide Needs, Quiet, HoldsNoValue;
    assert ".\")"[..1] == ".";
    QuietWithTail(pin, "cc_version=", ".\")", Digit);
  }

  lemma ClaudeVersionCovered()
    ensures Covered(ClaudeVersion)
  {
    hide Versions, ValidPattern, Quiet, Untailed, IsVersion, Covered;
    assert ValidPattern(ClaudeVersion) && Versions(ClaudeVersion) && Untailed(ClaudeVersion, ".") by {
      VersionPattern(ClaudeVersion);
    }
    ClientVersions(ClaudeVersion);
    MessagesVersion(ClaudeVersion);
    DiscoveryVersion(ClaudeVersion);
    ClaudeTestVersion(ClaudeVersion);
    SettingsVersion(ClaudeVersion);
    ReferenceVersion(ClaudeVersion);
    CcVersion(ClaudeVersion);
    QuietIsCovered(ClaudeVersion, ".");
  }

  ghost const ClaudeAdvisorBeta := AdvisorPin([
    Site(ApplyGo, Around("const AdvisorToolBeta = \"", "\""), 1)])

  lemma ClaudeAdvisorBetaCovered()
    ensures Covered(ClaudeAdvisorBeta)
  {
    hide ValidPattern, Shape, HoldsNoValue, Covered, IsAdvisor;
    assert ValidPattern(ClaudeAdvisorBeta) by {
      AdvisorPattern(ClaudeAdvisorBeta);
    }
    FlushShape(ClaudeAdvisorBeta, "const AdvisorToolBeta = \"", "\"", "");
    TooShort(ClaudeAdvisorBeta, "\"");
    AloneIsCovered(ClaudeAdvisorBeta, "");
  }

  ghost const ClaudeStainlessPackage := VersionPin([
    Site(DefaultsGo, Around("{\"X-Stainless-Package-Version\", \"", "\"}"), 1),
    Site(ApplyTest, AroundGap("\"X-Stainless-Package-Version\":", Space, "\"", "\""), 1)])

  lemma StainlessHeader(pin: Pin)
    requires Versions(pin)
    ensures Quiet(pin, Around("{\"X-Stainless-Package-Version\", \"", "\"}"), "")
  {
    hide Versions, Quiet;
    QuietVersion(pin, "{\"X-Stainless-Package-Version\", \"", "\"}", "");
  }

  lemma StainlessTest(pin: Pin)
    requires Versions(pin)
    ensures Quiet(pin, AroundGap("\"X-Stainless-Package-Version\":", Space, "\"", "\""), "")
  {
    hide Quiet, Needs;
    GapQuietByLack(pin, "\"X-Stainless-Package-Version\":", Space, "\"", "\"", Digit);
  }

  lemma ClaudeStainlessPackageCovered()
    ensures Covered(ClaudeStainlessPackage)
  {
    hide Versions, ValidPattern, Quiet, Untailed, IsVersion, Covered;
    var pin := ClaudeStainlessPackage;
    assert ValidPattern(pin) && Versions(pin) by {
      VersionPattern(pin);
    }
    StainlessHeader(pin);
    StainlessTest(pin);
    QuietIsCovered(pin, "");
  }

  ghost const ClaudeRuntimeVersion := TaggedPin([
    Site(DefaultsGo, Around("return \"", "\""), 1),
    Site(ApplyTest, AroundGap("\"X-Stainless-Runtime-Version\":", Space, "\"", "\""), 1),
    Site(SettingsHtml, Around("placeholder=\"", "\""), 1)])

  lemma RuntimeVersions(pin: Pin)
    requires Tagged(pin)
    ensures Quiet(pin, Around("return \"", "\""), "") && Quiet(pin, Around("placeholder=\"", "\""), "")
  {
    hide Quiet, Needs;
    QuietByLack(pin, "return \"", "\"", "", Digit);
    QuietByLack(pin, "placeholder=\"", "\"", "", Digit);
  }

  lemma RuntimeVersionTest(pin: Pin)
    requires Tagged(pin)
    ensures Quiet(pin, AroundGap("\"X-Stainless-Runtime-Version\":", Space, "\"", "\""), "")
  {
    hide Quiet, Needs;
    GapQuietByLack(pin, "\"X-Stainless-Runtime-Version\":", Space, "\"", "\"", Digit);
  }

  lemma ClaudeRuntimeVersionCovered()
    ensures Covered(ClaudeRuntimeVersion)
  {
    hide Tagged, ValidPattern, Quiet, IsTagged, Covered;
    var pin := ClaudeRuntimeVersion;
    assert ValidPattern(pin) && Tagged(pin) by {
      TaggedPattern(pin);
    }
    RuntimeVersions(pin);
    RuntimeVersionTest(pin);
    QuietIsCovered(pin, "");
  }

  ghost const ClaudeFetchJa4 := Ja4Pin([
    Site(ClaudeTls, Around("\"fetch\": {\n      \"ja4\": \"", "\""), 1),
    Site(ClaudeGo, Around("/api/event_logging/v2/batch (JA4 ", ");"), 1)])

  lemma ClaudeFetchJa4Covered()
    ensures Covered(ClaudeFetchJa4)
  {
    hide ValidPattern, Covered, IsJa4;
    assert ValidPattern(ClaudeFetchJa4) by {
      Ja4Pattern(ClaudeFetchJa4);
    }
    BriefIsCovered(ClaudeFetchJa4);
  }

  ghost const ClaudeFetchJa3 := Ja3Pin([
    Site(ClaudeTls, AroundGap("\"fetch\": {\n      \"ja4\": \"", Any, "\",\n      \"ja3\": \"", "\""), 1)])

  lemma ClaudeFetchJa3Covered()
    ensures Covered(ClaudeFetchJa3)
  {
    hide ValidPattern, Shape, LiteralsHoldNone, HoldsNoValue, Covered, IsJa3;
    var pin := ClaudeFetchJa3;
    assert ValidPattern(pin) by {
      Ja3Pattern(pin);
    }
    assert LiteralsHoldNone(pin, Around("\",\n      \"ja3\": \"", "\"")) by {
      BriefHoldsNone(pin, "\",\n      \"ja3\": \"", "\"");
    }
    assert Shape(pin, AroundGap("\"fetch\": {\n      \"ja4\": \"", Any, "\",\n      \"ja3\": \"", "\""), "") by {
      GapShaped(pin, "\"fetch\": {\n      \"ja4\": \"", Any, "\",\n      \"ja3\": \"", "\"", "");
    }
    AloneIsCovered(pin, "");
  }

  /** The second template begins inside the class; no other site reads its file. */
  ghost const ClaudeNodeJa4 := Ja4Pin([
    Site(ClaudeTls, Around("\"node\": {\n      \"ja4\": \"", "\""), 1),
    Site(ClaudeGo, Around("batches (JA4 ", ")."), 1)])

  lemma ClaudeNodeJa4Covered()
    ensures Covered(ClaudeNodeJa4)
  {
    hide ValidPattern, Shape, HoldsNoValue, Covered, IsJa4;
    var pin := ClaudeNodeJa4;
    assert ValidPattern(pin) by {
      Ja4Pattern(pin);
    }
    TooShort(pin, "\"");
    TooShort(pin, ").");
    assert Shape(pin, Around("\"node\": {\n      \"ja4\": \"", "\""), "") by {
      FlushShape(pin, "\"node\": {\n      \"ja4\": \"", "\"", "");
    }
    assert Shape(pin, Around("batches (JA4 ", ")."), "") by {
      FlushShape(pin, "batches (JA4 ", ").", "");
    }
    AloneIsCovered(pin, "");
  }

  ghost const ClaudeNodeJa3 := Ja3Pin([
    Site(ClaudeTls, AroundGap("\"node\": {\n      \"ja4\": \"", Any, "\",\n      \"ja3\": \"", "\""), 1)])

  lemma ClaudeNodeJa3Covered()
    ensures Covered(ClaudeNodeJa3)
  {
    hide ValidPattern, Shape, LiteralsHoldNone, HoldsNoValue, Covered, IsJa3;
    var pin := ClaudeNodeJa3;
    assert ValidPattern(pin) by {
      Ja3Pattern(pin);
    }
    assert LiteralsHoldNone(pin, Around("\",\n      \"ja3\": \"", "\"")) by {
      BriefHoldsNone(pin, "\",\n      \"ja3\": \"", "\"");
    }
    assert Shape(pin, AroundGap("\"node\": {\n      \"ja4\": \"", Any, "\",\n      \"ja3\": \"", "\""), "") by {
      GapShaped(pin, "\"node\": {\n      \"ja4\": \"", Any, "\",\n      \"ja3\": \"", "\"", "");
    }
    AloneIsCovered(pin, "");
  }

  /** The literal before the value ends in a slash, which the value's characters include. */
  ghost const ClaudeGateBaseline := BaselinePin([
    Site(IdentityScript, Around("BASELINE=\"${CLAUDE_IDENTITY_BASELINE:-${REPO_ROOT}/", "}\""), 1)])

  lemma ClaudeGateBaselineCovered()
    ensures Covered(ClaudeGateBaseline)
  {
    hide ValidPattern, Needs, HoldsNoValue, Covered, IsBaseline;
    var pin := ClaudeGateBaseline;
    assert ValidPattern(pin) && Needs(pin, c => c == 'j') by {
      BaselinePattern(pin);
    }
    assert HoldsNoValue(pin, "}\"") by {
      LacksNeeded(pin, "}\"", c => c == 'j');
    }
    OneSiteIsCovered(pin, "BASELINE=\"${CLAUDE_IDENTITY_BASELINE:-${REPO_ROOT}/", "}\"", 49);
  }

  // ------------------------------------------------------------ opencode

  ghost const OpencodeVersion := VersionPin([
    Site(HarnessGo, Around("DefaultVersion = \"", "\""), 1),
    Site(HarnessGo, Around("header set is the one OpenCode ", " sends"), 1),
    Site(HarnessTest, Around("DefaultVersion != \"", "\""), 1),
    Site(HarnessTest, Around("DefaultVersion, \"", "\""), 1),
    Site(ConfigTest, Around("cfg.Zen.Harness.Version != \"", "\""), 1),
    Site(ConfigTest, Around("cfg.Zen.Harness.Version, \"", "\""), 1),
    Site(ConfigTest, Around("h[\"version\"] != \"", "\""), 1),
    Site(HarnessMjs, Around("version: '", "', client: 'cli', project: 'global'"), 2),
    Site(HarnessMjs, Around("harness.version, '", "'"), 1),
    Site(Readme, Around("OpenCode ", " header set"), 1),
    Site(Readme, Around("\"version\": \"", "\", \"client\""), 1)])

  lemma HarnessGoVersions(pin: Pin)
    requires Versions(pin)
    ensures Quiet(pin, Around("DefaultVersion = \"", "\""), "")
    ensures Quiet(pin, Around("header set is the one OpenCode ", " sends"), "")
  {
    hide Versions, Quiet;
    QuietVersion(pin, "DefaultVersion = \"", "\"", "");
    QuietVersion(pin, "header set is the one OpenCode ", " sends", "");
  }

  lemma HarnessTestVersions(pin: Pin)
    requires Versions(pin)
    ensures Quiet(pin, Around("DefaultVersion != \"", "\""), "")
    ensures Quiet(pin, Around("DefaultVersion, \"", "\""), "")
  {
    hide Versions, Quiet;
    QuietVersion(pin, "DefaultVersion != \"", "\"", "");
    QuietVersion(pin, "DefaultVersion, \"", "\"", "");
  }

  lemma ConfigTestVersions(pin: Pin)
    requires Versions(pin)
    ensures Quiet(pin, Around("cfg.Zen.Harness.Version != \"", "\""), "")
  {
    hide Versions, Quiet;
    QuietVersion(pin, "cfg.Zen.Harness.Version != \"", "\"", "");
  }

  lemma ConfigTestVersion(pin: Pin)
    requires Versions(pin)
    ensures Quiet(pin, Around("cfg.Zen.Harness.Version, \"", "\""), "")
    ensures Quiet(pin, Around("h[\"version\"] != \"", "\""), "")
  {
    hide Versions, Quiet;
    QuietVersion(pin, "cfg.Zen.Harness.Version, \"", "\"", "");
    QuietVersion(pin, "h[\"version\"] != \"", "\"", "");
  }

  lemma HarnessMjsClient(pin: Pin)
    requires Versions(pin)
    ensures Quiet(pin, Around("version: '", "', client: 'cli', project: 'global'"), "")
  {
    hide Versions, Quiet;
    QuietVersion(pin, "version: '", "', client: 'cli', project: 'global'", "");
  }

  lemma HarnessMjsVersion(pin: Pin)
    requires Versions(pin)
    ensures Quiet(pin, Around("harness.version, '", "'"), "")
  {
    hide Versions, Quiet;
    QuietVersion(pin, "harness.version, '", "'", "");
  }

  lemma ReadmeVersions(pin: Pin)
    requires Versions(pin)
    ensures Quiet(pin, Around("OpenCode ", " header set"), "")
    ensures Quiet(pin, Around("\"version\": \"", "\", \"client\""), "")
  {
    hide Versions, Quiet;
    QuietVersion(pin, "OpenCode ", " header set", "");
    QuietVersion(pin, "\"version\": \"", "\", \"client\"", "");
  }

  lemma OpencodeVersionCovered()
    ensures Covered(OpencodeVersion)
  {
    hide Versions, ValidPattern, Quiet, Untailed, IsVersion, Covered;
    assert ValidPattern(OpencodeVersion) && Versions(OpencodeVersion) by {
      VersionPattern(OpencodeVersion);
    }
    HarnessGoVersions(OpencodeVersion);
    HarnessTestVersions(OpencodeVersion);
    ConfigTestVersions(OpencodeVersion);
    ConfigTestVersion(OpencodeVersion);
    HarnessMjsClient(OpencodeVersion);
    HarnessMjsVersion(OpencodeVersion);
    ReadmeVersions(OpencodeVersion);
    QuietIsCovered(OpencodeVersion, "");
  }

  ghost const ZenJa4 := Ja4Pin([
    Site(ZenScript, Around("#   JA4 ", ""), 1),
    Site(ZenScript, Around("EXPECTED_JA4=\"", "\""), 1)])

  lemma ZenJa4Covered()
    ensures Covered(ZenJa4)
  {
    hide ValidPattern, Covered, IsJa4;
    assert ValidPattern(ZenJa4) by {
      Ja4Pattern(ZenJa4);
    }
    BriefIsCovered(ZenJa4);
  }

  ghost const ZenJa3 := Ja3Pin([
    Site(ZenScript, Around("#   JA3 ", ""), 1),
    Site(ZenScript, Around("EXPECTED_JA3=\"", "\""), 1),
    Site(ZenTlsTest, Around("want != \"", "\""), 1),
    Site(ZenTlsTest, Around("want baseline ", ""), 1),
    Site(Readme, Around("JA3 `", "`"), 1)])

  lemma ZenJa3Covered()
    ensures Covered(ZenJa3)
  {
    hide ValidPattern, Covered, IsJa3;
    assert ValidPattern(ZenJa3) by {
      Ja3Pattern(ZenJa3);
    }
    BriefIsCovered(ZenJa3);
  }

  // ------------------------------------------------------------ all of them

  ghost const Registry := [
    AgyVersion, AgyCl, AgyAuthMethod, AgyJa4, ClaudeVersion, ClaudeAdvisorBeta, ClaudeStainlessPackage,
    ClaudeRuntimeVersion, ClaudeFetchJa4, ClaudeFetchJa3, ClaudeNodeJa4, ClaudeNodeJa3, ClaudeGateBaseline,
    OpencodeVersion, ZenJa4, ZenJa3]

  /** Every one of them is covered. */
  lemma RegistryCovered(k: nat)
    requires k < |Registry|
    ensures Covered(Registry[k])
  {
    hide Covered, AgyVersion, AgyCl, AgyAuthMethod, AgyJa4, ClaudeVersion, ClaudeAdvisorBeta, ClaudeStainlessPackage;
    hide ClaudeRuntimeVersion, ClaudeFetchJa4, ClaudeFetchJa3, ClaudeNodeJa4, ClaudeNodeJa3, ClaudeGateBaseline;
    hide OpencodeVersion, ZenJa4, ZenJa3;
    AgyVersionCovered();
    AgyClCovered();
    AgyAuthMethodCovered();
    AgyJa4Covered();
    ClaudeVersionCovered();
    ClaudeAdvisorBetaCovered();
    ClaudeStainlessPackageCovered();
    ClaudeRuntimeVersionCovered();
    ClaudeFetchJa4Covered();
    ClaudeFetchJa3Covered();
    ClaudeNodeJa4Covered();
    ClaudeNodeJa3Covered();
    ClaudeGateBaselineCovered();
    OpencodeVersionCovered();
    ZenJa4Covered();
    ZenJa3Covered();
  }

  /** So for each of them a write reads back, leaves nothing for a second one, changes the
      values and nothing else, and reports the files it changed. */
  lemma RegistryRoundTrip(k: nat, files: Files, v: string, w: string)
    requires k < |Registry| && Registry[k].matches(w)
    requires ReadSites(files, Registry[k], Registry[k].sites) == Ok({v})
    ensures
      var pin := Registry[k];
      var after := WriteSites(files, pin, pin.sites, w);
      && ReadSites(after, pin, pin.sites) == Ok({w})
      && ReadsAs(after, pin, pin.sites, w) && Settled(after, pin, w)
      && after.Keys == files.Keys
      && forall p :: p in files ==>
           && WrittenUpTo(pin, |pin.sites|, p, files[p], after[p], w)
           && (p in ChangedPaths(files, pin, pin.sites, w) <==> after[p] != files[p])
  {
    hide Registry, ValidPin, Clear, ReadsAs, Settled, WrittenUpTo, ReadSites, WriteSites, ChangedPaths;
    RegistryCovered(k);
    var pin := Registry[k];
    WriteThenRead(pin, files, v, w);
    forall p | p in files
      ensures
        var after := WriteSites(files, pin, pin.sites, w);
        && p in after
        && WrittenUpTo(pin, |pin.sites|, p, files[p], after[p], w)
        && (p in ChangedPaths(files, pin, pin.sites, w) <==> after[p] != files[p])
    {
      OnlySpansChange(pin, files, v, w, p);
      ReportedIffChanged(pin, files, v, w, p);
    }
  }
}
