/** The semantic values the Art-Net output path works on: attribute values per
    fixture instance, and the deployment that places instances on universes.
    Identities are only ever compared; levels are real numbers. */
module Fixtures {
  type Uuid = nat
  type Capability = string

  const INTENSITY: Capability := "intensity"

  const SUPPORTED: seq<Capability> := [
    "intensity", "color", "color_red", "color_green", "color_blue", "color_white",
    "pan", "tilt", "zoom", "focus", "gobo", "shutter", "strobe"]

  type AttributeSet = map<Capability, real>
  type Frame = map<Uuid, AttributeSet>

  datatype Instance = Instance(id: Uuid, poolId: Uuid, poolMemberId: Uuid, mode: string,
                               universe: int, address: int)

  /** One channel of a mode, in wiring order. */
  datatype Slot = Slot(kind: Capability, occurrence: nat)

  datatype Resolution = Resolved(channels: seq<Slot>) | Unresolved(reason: string)

  datatype MemberRef = MemberRef(poolId: Uuid, poolMemberId: Uuid)

  datatype Group = Group(id: Uuid, members: seq<MemberRef>)

  type Byte = x: int | 0 <= x < 256
}
