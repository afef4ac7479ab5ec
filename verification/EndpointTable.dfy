/**
 The table of the allowed endpoints: regular expressions without their anchors, which every
 one of them has on both sides.
 */
module EndpointTable {

  function Patterns(): seq<string> {
    StatePatterns() + BlockPatterns() + PoolPatterns() + LightClientPatterns() + BeaconRewardsPatterns() +
    BeaconV2Patterns() + BeaconV3Patterns() + ConfigPatterns() + DebugPatterns() + DebugV2Patterns() +
    EventPatterns() + NodePatterns() + DutyPatterns() + AttestationPatterns() + ContributionPatterns() +
    ValidatorV2Patterns() + ValidatorV3Patterns() + BuilderPatterns() + RewardsPatterns()
  }

  function StatePatterns(): seq<string> {
    [
      "/eth/v1/beacon/genesis",
      "/eth/v1/beacon/states/[^/]+/root",
      "/eth/v1/beacon/states/[^/]+/fork",
      "/eth/v1/beacon/states/[^/]+/finality_checkpoints",
      "/eth/v1/beacon/states/[^/]+/validators",
      "/eth/v1/beacon/states/[^/]+/validators/[^/]+",
      "/eth/v1/beacon/states/[^/]+/validator_balances",
      "/eth/v1/beacon/states/[^/]+/committees",
      "/eth/v1/beacon/states/[^/]+/sync_committees",
      "/eth/v1/beacon/states/[^/]+/randao"
    ]
  }

  function BlockPatterns(): seq<string> {
    [
      "/eth/v1/beacon/headers",
      "/eth/v1/beacon/headers/[^/]+",
      "/eth/v1/beacon/blocks/[^/]+",
      "/eth/v1/beacon/blocks/[^/]+/root",
      "/eth/v1/beacon/blocks/[^/]+/attestations",
      "/eth/v1/beacon/blob_sidecars/[^/]+",
      "/eth/v1/beacon/blobs/[^/]+"
    ]
  }

  function PoolPatterns(): seq<string> {
    [
      "/eth/v1/beacon/pool/attestations",
      "/eth/v1/beacon/pool/attester_slashings",
      "/eth/v1/beacon/pool/proposer_slashings",
      "/eth/v1/beacon/pool/voluntary_exits",
      "/eth/v1/beacon/pool/bls_to_execution_changes"
    ]
  }

  function LightClientPatterns(): seq<string> {
    [
      "/eth/v1/beacon/light_client/bootstrap/[^/]+",
      "/eth/v1/beacon/light_client/updates",
      "/eth/v1/beacon/light_client/finality_update",
      "/eth/v1/beacon/light_client/optimistic_update",
      "/eth/v1/beacon/deposit_snapshot"
    ]
  }

  function BeaconRewardsPatterns(): seq<string> {
    [
      "/eth/v1/beacon/rewards/blocks/[^/]+",
      "/eth/v1/beacon/rewards/attestations/[^/]+",
      "/eth/v1/beacon/rewards/sync_committee/[^/]+"
    ]
  }

  function BeaconV2Patterns(): seq<string> {
    [
      "/eth/v2/beacon/blocks/[^/]+",
      "/eth/v2/beacon/pool/attestations"
    ]
  }

  function BeaconV3Patterns(): seq<string> {
    [
      "/eth/v3/beacon/blocks/[^/]+"
    ]
  }

  function ConfigPatterns(): seq<string> {
    [
      "/eth/v1/config/fork_schedule",
      "/eth/v1/config/spec",
      "/eth/v1/config/deposit_contract"
    ]
  }

  function DebugPatterns(): seq<string> {
    [
      "/eth/v1/debug/beacon/states/[^/]+",
      "/eth/v1/debug/beacon/heads",
      "/eth/v1/debug/fork_choice"
    ]
  }

  function DebugV2Patterns(): seq<string> {
    [
      "/eth/v2/debug/beacon/states/[^/]+",
      "/eth/v2/debug/beacon/heads"
    ]
  }

  function EventPatterns(): seq<string> {
    [
      "/eth/v1/events"
    ]
  }

  function NodePatterns(): seq<string> {
    [
      "/eth/v1/node/identity",
      "/eth/v1/node/peers",
      "/eth/v1/node/peers/[^/]+",
      "/eth/v1/node/peer_count",
      "/eth/v1/node/version",
      "/eth/v1/node/syncing",
      "/eth/v1/node/health"
    ]
  }

  function DutyPatterns(): seq<string> {
    [
      "/eth/v1/validator/duties/attester/[^/]+",
      "/eth/v1/validator/duties/proposer/[^/]+",
      "/eth/v1/validator/duties/sync/[^/]+",
      "/eth/v1/validator/blocks/[^/]+"
    ]
  }

  function AttestationPatterns(): seq<string> {
    [
      "/eth/v1/validator/attestation_data",
      "/eth/v1/validator/aggregate_attestation",
      "/eth/v1/validator/aggregate_and_proofs",
      "/eth/v1/validator/beacon_committee_subscriptions",
      "/eth/v1/validator/sync_committee_subscriptions"
    ]
  }

  function ContributionPatterns(): seq<string> {
    [
      "/eth/v1/validator/sync_committee_contribution",
      "/eth/v1/validator/contribution_and_proofs",
      "/eth/v1/validator/prepare_beacon_proposer",
      "/eth/v1/validator/register_validator",
      "/eth/v1/validator/liveness/[^/]+"
    ]
  }

  function ValidatorV2Patterns(): seq<string> {
    [
      "/eth/v2/validator/blocks/[^/]+",
      "/eth/v2/validator/aggregate_attestation"
    ]
  }

  function ValidatorV3Patterns(): seq<string> {
    [
      "/eth/v3/validator/blocks/[^/]+"
    ]
  }

  function BuilderPatterns(): seq<string> {
    [
      "/eth/v1/builder/states/[^/]+/expected_withdrawals"
    ]
  }

  function RewardsPatterns(): seq<string> {
    [
      "/eth/v1/beacon/rewards/blocks/[^/]+",
      "/eth/v1/beacon/rewards/attestations/[^/]+",
      "/eth/v1/beacon/rewards/sync_committee/[^/]+"
    ]
  }
}
