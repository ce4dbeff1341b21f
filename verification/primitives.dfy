/** Identifiers, instants and the nullable wrappers the user record is made of. */
module Primitives {
  import opened Failure

  /** A 128-bit UUID. */
  datatype Uuid = Uuid(hi: bv64, lo: bv64)

  /** The all-zero UUID, the zero value of `uuid.UUID`. */
  const NilUuid: Uuid := Uuid(0, 0)

  /** An instant; only equality matters to the core, so it is left abstract as an integer. */
  type Time = int

  /** The zero value of `time.Time`. */
  const ZeroTime: Time := 0

  /** `null.Time`: an instant with a validity flag. */
  datatype NullTime = NullTime(time: Time, valid: bool)

  /** The zero value of `null.Time`: not valid. */
  const NullTimeUnset: NullTime := NullTime(ZeroTime, false)

  /** `null.TimeFrom`: a valid nullable instant. */
  function TimeFrom(t: Time): (n: NullTime)
    ensures n.valid && n.time == t
  {
    NullTime(t, true)
  }

  /** `nuuid.NUUID`: a UUID with a validity flag. */
  datatype NUuid = NUuid(id: Uuid, valid: bool)

  /** The zero value of `nuuid.NUUID`: not valid. */
  const NUuidUnset: NUuid := NUuid(NilUuid, false)

  /** `nuuid.From`: a valid nullable UUID. */
  function From(id: Uuid): (n: NUuid)
    ensures n.valid && n.id == id
  {
    NUuid(id, true)
  }

  /** `NUUID.Ptr`: the id when valid, nil otherwise. */
  function Ptr(n: NUuid): (r: Option<Uuid>)
    ensures r.Some? <==> n.valid
    ensures r.Some? ==> r.value == n.id
  {
    if n.valid then Some(n.id) else None
  }
}
