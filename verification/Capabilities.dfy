/** The parts of a capability contract that planning and composition checks read. */
module Capabilities {
  import opened Contracts

  datatype DataClassification = Public | Internal | Confidential | Restricted

  datatype EntityRef = EntityRef(entityId: string, tenant: Option<string>)

  datatype Capability = Capability(
    id: string, dependsOn: seq<string>, sideEffect: SideEffect,
    reads_: seq<EntityRef>, writes: seq<EntityRef>, classification: DataClassification)

  function Ids(caps: seq<Capability>): (ids: seq<string>)
    ensures |ids| == |caps| && forall i :: 0 <= i < |caps| ==> ids[i] == caps[i].id
  {
    seq(|caps|, i requires 0 <= i < |caps| => caps[i].id)
  }
}
