/** Conversions between the hit DTO and the hit entity. */
module HitMapper {
  import opened Wrappers
  import opened HitDtos
  import opened Hits

  /**
   * Copies the DTO into a new entity; a missing timestamp becomes `now`,
   * the clock reading taken at conversion time.
   */
  function ToHit(d: HitDto, now: int): (h: Hit)
    ensures h.id == d.id && h.app == d.app && h.ip == d.ip && h.uri == d.uri
    ensures h.timestamp.Some?
    ensures d.timestamp.Some? ==> h.timestamp == d.timestamp
    ensures d.timestamp.None? ==> h.timestamp == Some(now)
  {
    Hit(d.id, d.app, d.ip, d.uri,
        if d.timestamp.Some? then d.timestamp else Some(now))
  }

  /** Copies all five fields of the entity into a new DTO. */
  function ToHitDto(h: Hit): (d: HitDto)
    ensures d.id == h.id && d.app == h.app && d.ip == h.ip && d.uri == h.uri
    ensures d.timestamp == h.timestamp
  {
    HitDto(h.id, h.app, h.uri, h.ip, h.timestamp)
  }

  /** A DTO that carries a timestamp survives the trip through the entity unchanged. */
  lemma DtoRoundTrip(d: HitDto, now: int)
    requires d.timestamp.Some?
    ensures ToHitDto(ToHit(d, now)) == d
  {
  }

  /** A DTO without a timestamp comes back stamped with the conversion time, otherwise unchanged. */
  lemma DtoRoundTripStamps(d: HitDto, now: int)
    requires d.timestamp.None?
    ensures ToHitDto(ToHit(d, now)) == d.(timestamp := Some(now))
  {
  }

  /** An entity that carries a timestamp survives the trip through the DTO unchanged. */
  lemma HitRoundTrip(h: Hit, now: int)
    requires h.timestamp.Some?
    ensures ToHit(ToHitDto(h), now) == h
  {
  }
}
