/**
 What the table allows, path by path.
 */
module Whitelist {
  import EndpointTable
  import opened Endpoints

  /** An identifier as it stands in a path. */
  predicate IsId(id: string) {
    id != "" && '/' !in id && forall i :: 0 <= i < |id| ==> !IsSpace(id[i])
  }

  lemma NormalAlready(path: string)
    requires path != "" && !IsSpace(path[0]) && !IsSpace(path[|path| - 1]) && path[|path| - 1] != '/'
    ensures Normalised(path) == path
  {
  }

  lemma AcceptsText(patterns: seq<string>, text: string)
    requires text in patterns && '[' !in text
    requires text != "" && !IsSpace(text[0]) && !IsSpace(text[|text| - 1]) && text[|text| - 1] != '/'
    ensures AcceptedBy(patterns, text)
  {
    NormalAlready(text);
    NoWildcard(text, text);
    AllowsByCharacters(text, text);
  }

  lemma AcceptsFilled(patterns: seq<string>, a: string, b: string, id: string)
    requires a + "[^/]+" + b in patterns && '[' !in a && '[' !in b && IsId(id)
    requires a != "" && !IsSpace(a[0])
    requires b != "" ==> !IsSpace(b[|b| - 1]) && b[|b| - 1] != '/'
    ensures AcceptedBy(patterns, a + id + b)
  {
    var path := a + id + b;
    assert path[|path| - 1] == if b == "" then id[|id| - 1] else b[|b| - 1];
    NormalAlready(path);
    WildcardFilled(a, b, id);
    AllowsByCharacters(a + "[^/]+" + b, path);
  }

  lemma AcceptsFilledTwice(patterns: seq<string>, a: string, b: string, first: string, second: string)
    requires a + ("[^/]+" + (b + "[^/]+")) in patterns && '[' !in a && '[' !in b && IsId(first) && IsId(second)
    requires a != "" && !IsSpace(a[0])
    ensures AcceptedBy(patterns, a + (first + (b + second)))
  {
    var path, rest, tail := a + (first + (b + second)), first + (b + second), b + second;
    assert path[|path| - 1] == second[|second| - 1];
    NormalAlready(path);
    assert b + "[^/]+" + "" == b + "[^/]+" && b + second + "" == tail;
    WildcardFilled(b, "", second);
    CompileWildcard(b + "[^/]+", rest);
    assert rest[..|first|] == first && rest[|first|..] == tail;
    assert path[|a|..] == rest;
    CompilePrefix(a, "[^/]+" + (b + "[^/]+"), path);
    AllowsByCharacters(a + ("[^/]+" + (b + "[^/]+")), path);
  }

  // ---------------------------------------------------------------- allowed paths

  /** The groups of the table. */
  lemma Groups(text: string)
    ensures text in EndpointTable.Patterns() <==>
      || text in EndpointTable.StatePatterns() || text in EndpointTable.BlockPatterns()
      || text in EndpointTable.PoolPatterns() || text in EndpointTable.LightClientPatterns()
      || text in EndpointTable.BeaconRewardsPatterns() || text in EndpointTable.BeaconV2Patterns()
      || text in EndpointTable.BeaconV3Patterns() || text in EndpointTable.ConfigPatterns()
      || text in EndpointTable.DebugPatterns() || text in EndpointTable.DebugV2Patterns()
      || text in EndpointTable.EventPatterns() || text in EndpointTable.NodePatterns()
      || text in EndpointTable.DutyPatterns() || text in EndpointTable.AttestationPatterns()
      || text in EndpointTable.ContributionPatterns() || text in EndpointTable.ValidatorV2Patterns()
      || text in EndpointTable.ValidatorV3Patterns() || text in EndpointTable.BuilderPatterns()
      || text in EndpointTable.RewardsPatterns()
  {
  }

  lemma GenesisFits(patterns: seq<string>)
    requires "/eth/v1/beacon/genesis" in patterns
    ensures AcceptedBy(patterns, "/eth/v1/beacon/genesis")
  {
    AcceptsText(patterns, "/eth/v1/beacon/genesis");
  }

  lemma GenesisListed()
    ensures "/eth/v1/beacon/genesis" in EndpointTable.StatePatterns()
  {
    assert EndpointTable.StatePatterns()[0] == "/eth/v1/beacon/genesis";
  }

  /** Genesis is allowed. */
  lemma Genesis()
    ensures AcceptedBy(EndpointTable.Patterns(), "/eth/v1/beacon/genesis")
  {
    GenesisListed();
    Groups("/eth/v1/beacon/genesis");
    GenesisFits(EndpointTable.Patterns());
  }

  lemma StateRootFits(patterns: seq<string>, id: string)
    requires "/eth/v1/beacon/states/[^/]+/root" in patterns && IsId(id)
    ensures AcceptedBy(patterns, "/eth/v1/beacon/states/" + id + "/root")
  {
    assert "/eth/v1/beacon/states/[^/]+/root" == "/eth/v1/beacon/states/" + "[^/]+" + "/root";
    AcceptsFilled(patterns, "/eth/v1/beacon/states/", "/root", id);
  }

  lemma StateRootListed()
    ensures "/eth/v1/beacon/states/[^/]+/root" in EndpointTable.StatePatterns()
  {
    assert EndpointTable.StatePatterns()[1] == "/eth/v1/beacon/states/[^/]+/root";
  }

  /** The root of every state is allowed. */
  lemma StateRoot(id: string)
    requires IsId(id)
    ensures AcceptedBy(EndpointTable.Patterns(), "/eth/v1/beacon/states/" + id + "/root")
  {
    StateRootListed();
    Groups("/eth/v1/beacon/states/[^/]+/root");
    StateRootFits(EndpointTable.Patterns(), id);
  }

  lemma PeerFits(patterns: seq<string>, id: string)
    requires "/eth/v1/node/peers/[^/]+" in patterns && IsId(id)
    ensures AcceptedBy(patterns, "/eth/v1/node/peers/" + id)
  {
    assert "/eth/v1/node/peers/[^/]+" == "/eth/v1/node/peers/" + "[^/]+" + "";
    AcceptsFilled(patterns, "/eth/v1/node/peers/", "", id);
    assert "/eth/v1/node/peers/" + id + "" == "/eth/v1/node/peers/" + id;
  }

  lemma PeerListed()
    ensures "/eth/v1/node/peers/[^/]+" in EndpointTable.NodePatterns()
  {
    assert EndpointTable.NodePatterns()[2] == "/eth/v1/node/peers/[^/]+";
  }

  /** Every peer is allowed. */
  lemma Peer(id: string)
    requires IsId(id)
    ensures AcceptedBy(EndpointTable.Patterns(), "/eth/v1/node/peers/" + id)
  {
    PeerListed();
    Groups("/eth/v1/node/peers/[^/]+");
    PeerFits(EndpointTable.Patterns(), id);
  }

  lemma ProduceBlockV3Fits(patterns: seq<string>, id: string)
    requires "/eth/v3/validator/blocks/[^/]+" in patterns && IsId(id)
    ensures AcceptedBy(patterns, "/eth/v3/validator/blocks/" + id)
  {
    assert "/eth/v3/validator/blocks/[^/]+" == "/eth/v3/validator/blocks/" + "[^/]+" + "";
    AcceptsFilled(patterns, "/eth/v3/validator/blocks/", "", id);
    assert "/eth/v3/validator/blocks/" + id + "" == "/eth/v3/validator/blocks/" + id;
  }

  lemma ProduceBlockV3Listed()
    ensures "/eth/v3/validator/blocks/[^/]+" in EndpointTable.ValidatorV3Patterns()
  {
    assert EndpointTable.ValidatorV3Patterns()[0] == "/eth/v3/validator/blocks/[^/]+";
  }

  /** Block production by version 3 is allowed for every slot. */
  lemma ProduceBlockV3(id: string)
    requires IsId(id)
    ensures AcceptedBy(EndpointTable.Patterns(), "/eth/v3/validator/blocks/" + id)
  {
    ProduceBlockV3Listed();
    Groups("/eth/v3/validator/blocks/[^/]+");
    ProduceBlockV3Fits(EndpointTable.Patterns(), id);
  }

  lemma StateValidatorText()
    ensures "/eth/v1/beacon/states/[^/]+/validators/[^/]+"
      == "/eth/v1/beacon/states/" + ("[^/]+" + ("/validators/" + "[^/]+"))
  {
  }

  lemma Reassociated(a: string, b: string, c: string, d: string)
    ensures a + b + c + d == a + (b + (c + d))
  {
  }

  lemma StateValidatorFits(patterns: seq<string>, state: string, id: string)
    requires "/eth/v1/beacon/states/[^/]+/validators/[^/]+" in patterns && IsId(state) && IsId(id)
    ensures AcceptedBy(patterns, "/eth/v1/beacon/states/" + state + "/validators/" + id)
  {
    StateValidatorText();
    AcceptsFilledTwice(patterns, "/eth/v1/beacon/states/", "/validators/", state, id);
    Reassociated("/eth/v1/beacon/states/", state, "/validators/", id);
  }

  lemma StateValidatorListed()
    ensures "/eth/v1/beacon/states/[^/]+/validators/[^/]+" in EndpointTable.StatePatterns()
  {
    assert EndpointTable.StatePatterns()[5] == "/eth/v1/beacon/states/[^/]+/validators/[^/]+";
  }

  /** Every validator of every state is allowed. */
  lemma StateValidator(state: string, id: string)
    requires IsId(state) && IsId(id)
    ensures AcceptedBy(EndpointTable.Patterns(), "/eth/v1/beacon/states/" + state + "/validators/" + id)
  {
    StateValidatorListed();
    Groups("/eth/v1/beacon/states/[^/]+/validators/[^/]+");
    StateValidatorFits(EndpointTable.Patterns(), state, id);
  }

  // ---------------------------------------------------------------- forbidden paths

  lemma PrefixNeeded(prefix: string, text: string, path: string)
    requires '[' !in prefix && prefix <= text && Allows(text, path)
    ensures prefix <= path
  {
    assert text == prefix + text[|prefix|..];
    AllowsByCharacters(text, path);
    CompilePrefix(prefix, text[|prefix|..], path);
  }

  predicate Share(prefix: string, patterns: seq<string>) {
    forall text :: text in patterns ==> prefix <= text
  }

  lemma StateVersion()
    ensures Share("/eth/v1/", EndpointTable.StatePatterns())
  {
  }

  lemma BlockVersion()
    ensures Share("/eth/v1/", EndpointTable.BlockPatterns())
  {
  }

  lemma PoolVersion()
    ensures Share("/eth/v1/", EndpointTable.PoolPatterns())
  {
  }

  lemma LightClientVersion()
    ensures Share("/eth/v1/", EndpointTable.LightClientPatterns())
  {
  }

  lemma BeaconRewardsVersion()
    ensures Share("/eth/v1/", EndpointTable.BeaconRewardsPatterns())
  {
  }

  lemma ConfigVersion()
    ensures Share("/eth/v1/", EndpointTable.ConfigPatterns())
  {
  }

  lemma DebugVersion()
    ensures Share("/eth/v1/", EndpointTable.DebugPatterns())
  {
  }

  lemma EventVersion()
    ensures Share("/eth/v1/", EndpointTable.EventPatterns())
  {
  }

  lemma NodeVersion()
    ensures Share("/eth/v1/", EndpointTable.NodePatterns())
  {
  }

  lemma DutyVersion()
    ensures Share("/eth/v1/", EndpointTable.DutyPatterns())
  {
  }

  lemma AttestationVersion()
    ensures Share("/eth/v1/", EndpointTable.AttestationPatterns())
  {
  }

  lemma ContributionVersion()
    ensures Share("/eth/v1/", EndpointTable.ContributionPatterns())
  {
  }

  lemma BuilderVersion()
    ensures Share("/eth/v1/", EndpointTable.BuilderPatterns())
  {
  }

  lemma RewardsVersion()
    ensures Share("/eth/v1/", EndpointTable.RewardsPatterns())
  {
  }

  lemma BeaconV2Version()
    ensures Share("/eth/v2/", EndpointTable.BeaconV2Patterns())
  {
  }

  lemma DebugV2Version()
    ensures Share("/eth/v2/", EndpointTable.DebugV2Patterns())
  {
  }

  lemma ValidatorV2Version()
    ensures Share("/eth/v2/", EndpointTable.ValidatorV2Patterns())
  {
  }

  lemma BeaconV3Version()
    ensures Share("/eth/v3/", EndpointTable.BeaconV3Patterns())
  {
  }

  lemma ValidatorV3Version()
    ensures Share("/eth/v3/", EndpointTable.ValidatorV3Patterns())
  {
  }

  /** Every pattern of the table is one of three versions. */
  lemma Versions(text: string)
    requires text in EndpointTable.Patterns()
    ensures "/eth/v1/" <= text || "/eth/v2/" <= text || "/eth/v3/" <= text
  {
    Groups(text);
    StateVersion();
    BlockVersion();
    PoolVersion();
    LightClientVersion();
    BeaconRewardsVersion();
    BeaconV2Version();
    BeaconV3Version();
    ConfigVersion();
    DebugVersion();
    DebugV2Version();
    EventVersion();
    NodeVersion();
    DutyVersion();
    AttestationVersion();
    ContributionVersion();
    ValidatorV2Version();
    ValidatorV3Version();
    BuilderVersion();
    RewardsVersion();
  }

  /** No other path is allowed. */
  lemma VersionsOnly(path: string)
    requires AcceptedBy(EndpointTable.Patterns(), path)
    ensures var normal := Normalised(path);
      "/eth/v1/" <= normal || "/eth/v2/" <= normal || "/eth/v3/" <= normal
  {
    var normal := Normalised(path);
    var text :| text in EndpointTable.Patterns() && Allows(text, normal);
    Versions(text);
    if "/eth/v1/" <= text {
      PrefixNeeded("/eth/v1/", text, normal);
    } else if "/eth/v2/" <= text {
      PrefixNeeded("/eth/v2/", text, normal);
    } else {
      PrefixNeeded("/eth/v3/", text, normal);
    }
  }
}
