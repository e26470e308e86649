/**
 * The client description that the session and login-history services derive from a
 * `User-Agent` header. The UAParser library is a function parameter: `None` stands for a
 * parse that throws, which both services swallow.
 */
module UserAgent {
  import opened Wrappers

  /** The parts of UAParser's `ClientInfo` that the services read. */
  datatype ClientInfo = ClientInfo(
    uaFamily: string,
    uaMajor: Option<string>,
    osFamily: string,
    osMajor: Option<string>,
    deviceFamily: string)

  type Parser = string -> Option<ClientInfo>

  /** The Browser, OperatingSystem and Device columns of a session or login-history row. */
  datatype ClientMetadata = ClientMetadata(
    browser: Option<string>,
    operatingSystem: Option<string>,
    device: Option<string>)

  const NoMetadata := ClientMetadata(None, None, None)

  /** `$"{family} {major}"`: a null major interpolates as nothing, leaving the trailing space. */
  function FamilyAndMajor(family: string, major: Option<string>): (r: string)
    ensures |r| > |family| && r[..|family|] == family && r[|family|] == ' '
    ensures major.None? ==> r == family + " "
  {
    family + " " + major.GetOr("")
  }

  /**
   * The metadata of a header: nothing for a null or empty header or a failed parse;
   * otherwise browser and operating system as family and major version, and the device
   * family unless the parser reports it as "Other".
   */
  function Describe(userAgent: Option<string>, parse: Parser): (r: ClientMetadata)
    ensures userAgent.None? || userAgent == Some("") ==> r == NoMetadata
    ensures r.browser.Some? <==> userAgent.Some? && userAgent.value != "" && parse(userAgent.value).Some?
    ensures r.operatingSystem.Some? <==> r.browser.Some?
    ensures r.browser.Some? ==> var c := parse(userAgent.value).value;
      && r.browser == Some(FamilyAndMajor(c.uaFamily, c.uaMajor))
      && r.operatingSystem == Some(FamilyAndMajor(c.osFamily, c.osMajor))
      && (r.device.None? <==> c.deviceFamily == "Other")
      && (r.device.Some? ==> r.device.value == c.deviceFamily)
    ensures r.browser.None? ==> r == NoMetadata
  {
    if userAgent.None? || userAgent.value == "" then NoMetadata
    else
      match parse(userAgent.value)
      case None => NoMetadata
      case Some(c) =>
        ClientMetadata(
          Some(FamilyAndMajor(c.uaFamily, c.uaMajor)),
          Some(FamilyAndMajor(c.osFamily, c.osMajor)),
          if c.deviceFamily != "Other" then Some(c.deviceFamily) else None)
  }
}
