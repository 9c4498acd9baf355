/** The component's configuration state and the sensor providers that read
    it.  The source reaches this state from static callbacks through a
    process-wide `instance_` pointer; here that pointer is an optional
    `Config` passed to the provider, `None` standing for "not set up yet". */
module Component {
  import opened Base
  import Adapters

  /** An optional sensor the component reads: whether it has produced a
      reading yet, and that reading. */
  datatype Sensor = Sensor(hasState: bool, state: real)

  /** The configuration fields of the component.  At registration time only
      whether each sensor is present matters (`BuildMib` reads
      `temperature.Some?` and `humidity.Some?`); the readings a sensor
      carries matter only to the providers, which reach the component
      through the instance they are given at request time. */
  datatype Config = Config(
    readCommunity: string,
    writeCommunity: string,
    contact: string,
    location: string,
    temperature: Option<Sensor>,
    humidity: Option<Sensor>)

  const DEFAULT_READ_COMMUNITY: string := "public"
  const DEFAULT_WRITE_COMMUNITY: string := "private"

  /** A freshly constructed component: the two community defaults, empty
      contact and location strings, and no sensors. */
  function DefaultConfig(): (c: Config)
    ensures c.readCommunity == "public" && c.writeCommunity == "private"
    ensures c.contact == "" && c.location == ""
    ensures c.temperature.None? && c.humidity.None?
  {
    Config(DEFAULT_READ_COMMUNITY, DEFAULT_WRITE_COMMUNITY, "", "", None, None)
  }

  /** The configuration with everything but the four strings held fixed. */
  predicate SameExceptStrings(a: Config, b: Config) {
    a.temperature == b.temperature && a.humidity == b.humidity
  }

  function SetReadCommunity(c: Config, community: string): (r: Config)
    ensures r.readCommunity == community
    ensures r.writeCommunity == c.writeCommunity && r.contact == c.contact && r.location == c.location
    ensures SameExceptStrings(r, c)
  {
    c.(readCommunity := community)
  }

  function SetWriteCommunity(c: Config, community: string): (r: Config)
    ensures r.writeCommunity == community
    ensures r.readCommunity == c.readCommunity && r.contact == c.contact && r.location == c.location
    ensures SameExceptStrings(r, c)
  {
    c.(writeCommunity := community)
  }

  function SetContact(c: Config, contact: string): (r: Config)
    ensures r.contact == contact
    ensures r.readCommunity == c.readCommunity && r.writeCommunity == c.writeCommunity && r.location == c.location
    ensures SameExceptStrings(r, c)
  {
    c.(contact := contact)
  }

  function SetLocation(c: Config, location: string): (r: Config)
    ensures r.location == location
    ensures r.readCommunity == c.readCommunity && r.writeCommunity == c.writeCommunity && r.contact == c.contact
    ensures SameExceptStrings(r, c)
  {
    c.(location := location)
  }

  /** Setters of different fields commute, and a second call to the same
      setter overrides the first, so a configuration is determined by the
      last value given to each field. */
  lemma SettersCommute(c: Config, rc: string, wc: string, contact: string, location: string)
    ensures SetWriteCommunity(SetReadCommunity(c, rc), wc) == SetReadCommunity(SetWriteCommunity(c, wc), rc)
    ensures SetLocation(SetContact(c, contact), location) == SetContact(SetLocation(c, location), contact)
    ensures SetContact(SetReadCommunity(c, rc), contact) == SetReadCommunity(SetContact(c, contact), rc)
    ensures SetLocation(SetWriteCommunity(c, wc), location) == SetWriteCommunity(SetLocation(c, location), wc)
    ensures SetLocation(SetReadCommunity(c, rc), location) == SetReadCommunity(SetLocation(c, location), rc)
    ensures SetContact(SetWriteCommunity(c, wc), contact) == SetWriteCommunity(SetContact(c, contact), wc)
  {
  }

  lemma SettersLastWins(c: Config, s1: string, s2: string)
    ensures SetReadCommunity(SetReadCommunity(c, s1), s2) == SetReadCommunity(c, s2)
    ensures SetWriteCommunity(SetWriteCommunity(c, s1), s2) == SetWriteCommunity(c, s2)
    ensures SetContact(SetContact(c, s1), s2) == SetContact(c, s2)
    ensures SetLocation(SetLocation(c, s1), s2) == SetLocation(c, s2)
  {
  }

  /** The guard shared by both sensor providers: 0 unless the sensor is
      configured and has a reading, then the reading in tenths. */
  function SensorTenths(sensor: Option<Sensor>): (v: int)
    ensures sensor.None? || !sensor.value.hasState ==> v == 0
    ensures sensor.Some? && sensor.value.hasState ==> v == Adapters.Tenths(sensor.value.state)
  {
    match sensor
    case None => 0
    case Some(s) => if s.hasState then Adapters.Tenths(s.state) else 0
  }

  /** `get_temperature`: 0 without a component instance, without a
      temperature sensor, or before that sensor has a reading. */
  function GetTemperature(instance: Option<Config>): (v: int)
    ensures instance.None? ==> v == 0
    ensures instance.Some? && instance.value.temperature.None? ==> v == 0
    ensures instance.Some? && instance.value.temperature.Some? && !instance.value.temperature.value.hasState ==> v == 0
    ensures instance.Some? && instance.value.temperature.Some? && instance.value.temperature.value.hasState ==>
              v == Adapters.Tenths(instance.value.temperature.value.state)
  {
    if instance.None? then 0 else SensorTenths(instance.value.temperature)
  }

  /** `get_humidity`: the same guard over the humidity sensor. */
  function GetHumidity(instance: Option<Config>): (v: int)
    ensures instance.None? ==> v == 0
    ensures instance.Some? && instance.value.humidity.None? ==> v == 0
    ensures instance.Some? && instance.value.humidity.Some? && !instance.value.humidity.value.hasState ==> v == 0
    ensures instance.Some? && instance.value.humidity.Some? && instance.value.humidity.value.hasState ==>
              v == Adapters.Tenths(instance.value.humidity.value.state)
  {
    if instance.None? then 0 else SensorTenths(instance.value.humidity)
  }
}
