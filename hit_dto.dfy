/**
 * The hit transfer object of the stats DTO module and the Bean Validation
 * constraints declared on its fields.
 */
module HitDtos {
  import opened Wrappers
  import opened Text

  /**
   * A hit as it travels over the wire. Every field is a nullable Java
   * reference; the timestamp is a LocalDateTime, modelled as an ordered int.
   */
  datatype HitDto = HitDto(
    id: Option<int>,
    app: Option<string>,
    uri: Option<string>,
    ip: Option<string>,
    timestamp: Option<int>)

  /** One constraint violation: the field and the message its annotation declares. */
  datatype Violation = Violation(field: string, message: string)

  const AppBlank := Violation("app", "App must not be blank")
  const UriBlank := Violation("uri", "Uri must not be blank")
  /** The ip constraint reuses the uri constraint's message text. */
  const IpBlank := Violation("ip", "Uri must not be blank")

  /**
   * The violations Bean Validation reports for `d`: one per @NotBlank field
   * that is null or blank. The IPv4 pattern on `ip` sits in @JsonFormat, which
   * is not a validation constraint, so it contributes nothing here; `id` and
   * `timestamp` carry no constraint.
   */
  function Violations(d: HitDto): set<Violation> {
    (if NotBlank(d.app) then {} else {AppBlank})
    + (if NotBlank(d.uri) then {} else {UriBlank})
    + (if NotBlank(d.ip) then {} else {IpBlank})
  }

  predicate IsValid(d: HitDto) {
    Violations(d) == {}
  }

  /**
   * A DTO is valid exactly when app, uri and ip are present and each has a
   * character other than whitespace or a control character.
   */
  lemma ValidIffVisible(d: HitDto)
    ensures IsValid(d) <==>
      && d.app.Some? && HasVisible(d.app.value)
      && d.uri.Some? && HasVisible(d.uri.value)
      && d.ip.Some? && HasVisible(d.ip.value)
  {
    NotBlankIffVisible(d.app);
    NotBlankIffVisible(d.uri);
    NotBlankIffVisible(d.ip);
    assert AppBlank != UriBlank && UriBlank != IpBlank && AppBlank != IpBlank;
  }

  /**
   * An ip that is not an IPv4 address, such as localhost, is accepted: the
   * pattern on ip only formats JSON and constrains nothing.
   */
  lemma IpFormatNotEnforced(d: HitDto)
    requires NotBlank(d.app) && NotBlank(d.uri)
    requires d.ip == Some("localhost")
    ensures IsValid(d)
  {
    NotBlankIffVisible(d.ip);
    assert !IsTrimmable(d.ip.value[0]);
  }

  /** Changing `id` or `timestamp` (to null or to any value) never changes the verdict. */
  lemma UnconstrainedFields(d: HitDto, id: Option<int>, timestamp: Option<int>)
    ensures Violations(d.(id := id, timestamp := timestamp)) == Violations(d)
  {
  }
}
